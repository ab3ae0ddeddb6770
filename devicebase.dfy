/**
 * The device base class of the driver (driver/src/device/hobovr_device_base.h):
 * a tracked device's pose, its power state, its object id and its list of
 * components. OpenVR property calls, haptics, battery and update checks
 * stay outside; the pose updates sent to the host are kept as a log.
 */
module DeviceBase {
  import opened Wrappers
  import opened Text
  import opened Components

  /** k_unTrackedDeviceIndexInvalid: the object id of a device that is not active. */
  const InvalidIndex: nat := 0xFFFF_FFFF

  /** The TrackingResult the constructor sets. */
  datatype TrackingResult = RunningOK

  /** The fields of DriverPose_t the device sets. */
  datatype DriverPose = DriverPose(
    result: TrackingResult,
    poseTimeOffset: real,
    qWorldFromDriverRotation: Quaternion,
    qDriverFromHeadRotation: Quaternion,
    qRotation: Quaternion,
    vecPosition: seq<real>,
    willDriftInYaw: bool,
    deviceIsConnected: bool,
    poseIsValid: bool,
    shouldApplyHeadModel: bool)

  /** EHobovrCompType. */
  datatype CompType = ExtendedDisplayComp | DriverDirectModeComp | CameraComp | VirtualDisplayComp

  /** HobovrComponent_t: the component's kind, its name and version, and the handle handed out for it. */
  datatype Component = Component(compType: CompType, componentNameAndVersion: string, handle: nat)

  /** The identity quaternion (1, 0, 0, 0). */
  const Identity: Quaternion := Quaternion(1.0, 0.0, 0.0, 0.0)

  /** _stricmp(a, b) == 0: the names are equal once both are lower-cased. */
  predicate SameName(a: string, b: string)
  {
    Lower(a) == Lower(b)
  }

  /** A name matches itself in any case mix: upper-case letters compare as lower-case ones. */
  lemma SameNameIgnoresCase(a: string)
    ensures SameName(a, Lower(a))
  {
    var l := Lower(a);
    assert forall k :: 0 <= k < |l| ==> !('A' <= l[k] <= 'Z');
    assert Lower(l) == l;
  }

  /** HobovrDevice: a tracked device seen from the driver. */
  class HobovrDevice {
    const serialNumber: string
    const modelNumber: string
    const poseTimeOffset: real
    var objectId: nat
    var pose: DriverPose
    var components: seq<Component>
    /** The poses handed to TrackedDevicePoseUpdated, with the object id they were sent for. */
    var poseUpdates: seq<(nat, DriverPose)>

    /** The object id is a uint32_t. */
    predicate Valid()
      reads this
    {
      objectId <= InvalidIndex
    }

    /**
     * The constructor: model number = breed + serial, no object id yet, and
     * a valid, connected pose at the origin with identity rotations and
     * the configured time offset. `components` is what the derived device
     * puts in m_vComponents; `poseTimeOffset` is the configured setting.
     */
    constructor(serial: string, deviceBreed: string, poseTimeOffset: real, components: seq<Component>)
      ensures Valid()
      ensures serialNumber == serial && modelNumber == deviceBreed + serial
      ensures objectId == InvalidIndex && this.components == components && poseUpdates == []
      ensures pose == DriverPose(RunningOK, poseTimeOffset, Identity, Identity, Identity, [0.0, 0.0, 0.0], true, true, true, false)
    {
      serialNumber := serial;
      modelNumber := deviceBreed + serial;
      this.poseTimeOffset := poseTimeOffset;
      objectId := InvalidIndex;
      this.components := components;
      poseUpdates := [];
      pose := DriverPose(RunningOK, poseTimeOffset, Identity, Identity, Identity, [0.0, 0.0, 0.0], true, true, true, false);
    }

    /** Activate: the device takes the object id the host gives it. */
    method Activate(unObjectId: nat)
      requires Valid() && unObjectId <= InvalidIndex
      modifies this
      ensures Valid() && objectId == unObjectId
      ensures pose == old(pose) && components == old(components) && poseUpdates == old(poseUpdates)
    {
      objectId := unObjectId;
    }

    /**
     * PowerOff: the pose becomes invalid and disconnected, the rest of it
     * unchanged; an active device reports the new pose to the host.
     */
    method PowerOff()
      requires Valid()
      modifies this
      ensures Valid() && objectId == old(objectId) && components == old(components)
      ensures pose == old(pose).(poseIsValid := false, deviceIsConnected := false)
      ensures poseUpdates == old(poseUpdates) + (if objectId != InvalidIndex then [(objectId, pose)] else [])
    {
      pose := pose.(poseIsValid := false, deviceIsConnected := false);
      if objectId != InvalidIndex {
        poseUpdates := poseUpdates + [(objectId, pose)];
      }
    }

    /**
     * PowerOn: the pose becomes valid and connected, the rest of it
     * unchanged; an active device reports the new pose to the host.
     */
    method PowerOn()
      requires Valid()
      modifies this
      ensures Valid() && objectId == old(objectId) && components == old(components)
      ensures pose == old(pose).(poseIsValid := true, deviceIsConnected := true)
      ensures poseUpdates == old(poseUpdates) + (if objectId != InvalidIndex then [(objectId, pose)] else [])
    {
      pose := pose.(poseIsValid := true, deviceIsConnected := true);
      if objectId != InvalidIndex {
        poseUpdates := poseUpdates + [(objectId, pose)];
      }
    }

    /** Deactivate: power off (reporting the pose if still active), then give up the object id. */
    method Deactivate()
      requires Valid()
      modifies this
      ensures Valid() && objectId == InvalidIndex && components == old(components)
      ensures pose == old(pose).(poseIsValid := false, deviceIsConnected := false)
      ensures poseUpdates == old(poseUpdates) + (if old(objectId) != InvalidIndex then [(old(objectId), pose)] else [])
    {
      PowerOff();
      objectId := InvalidIndex;
    }

    /**
     * GetComponent: the first component whose name matches the request,
     * ignoring case, or NULL (None) when none does.
     */
    method GetComponent(pchComponentNameAndVersion: string) returns (r: Option<Component>)
      ensures r.None? <==> forall k :: 0 <= k < |components| ==> !SameName(pchComponentNameAndVersion, components[k].componentNameAndVersion)
      ensures r.Some? ==> exists k :: FirstMatch(components, pchComponentNameAndVersion, k) && r.value == components[k]
    {
      var i := 0;
      while i < |components|
        invariant i <= |components|
        invariant forall k :: 0 <= k < i ==> !SameName(pchComponentNameAndVersion, components[k].componentNameAndVersion)
      {
        if Lower(pchComponentNameAndVersion) == Lower(components[i].componentNameAndVersion) {
          assert FirstMatch(components, pchComponentNameAndVersion, i);
          return Some(components[i]);
        }
        i := i + 1;
      }
      r := None;
    }
  }

  /** Component k is named `name`, ignoring case, and none before it is. */
  predicate FirstMatch(components: seq<Component>, name: string, k: int)
  {
    0 <= k < |components| && SameName(name, components[k].componentNameAndVersion) &&
    forall j :: 0 <= j < k ==> !SameName(name, components[j].componentNameAndVersion)
  }

  /** At most one component is the first match, so GetComponent's answer is determined. */
  lemma FirstMatchUnique(components: seq<Component>, name: string, k: int, k': int)
    requires FirstMatch(components, name, k) && FirstMatch(components, name, k')
    ensures k == k'
  {
  }
}
