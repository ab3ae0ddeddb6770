/**
 * The bookkeeping of the driver's display components
 * (driver/src/ref/hobovr_components.h): the eye viewports of the extended
 * display, and the direct-mode component's pose history, its per-frame
 * layer counter and its swap-texture indices. Textures, D3D and the
 * encoder stay outside; rotations are compared through their 3x3 blocks.
 */
module Components {
  import opened Wrappers

  /** uint32_t values wrap around at 2^32. */
  const WordRange: nat := 0x1_0000_0000

  /** MAX_LAYERS: the layers one frame can hold. */
  const MaxLayers: nat := 10

  /** The pose history keeps at most this many frames. */
  const HistoryLength: nat := 10

  /** minDiff's starting value in the search for the submitted frame. */
  const FarAway: real := 100000.0

  /** A uint32_t assignment: the value modulo 2^32. */
  function U32(x: int): (r: nat)
    ensures r < WordRange
    ensures 0 <= x < WordRange ==> r == x
  {
    x % WordRange
  }

  /** C++ int division, which truncates toward zero. */
  function CDiv(a: int, b: int): (q: int)
    requires b > 0
    ensures a >= 0 ==> q == a / b
    ensures a < 0 ==> q == -((-a) / b)
  {
    if a >= 0 then a / b else -((-a) / b)
  }

  datatype Eye = Left | Right

  datatype Viewport = Viewport(x: nat, y: nat, width: nat, height: nat)

  /** HobovrExtendedDisplayComponent's window settings (int32_t values read from the settings). */
  datatype ExtendedDisplay = ExtendedDisplay(
    windowX: int, windowY: int, windowWidth: int, windowHeight: int,
    renderWidth: int, renderHeight: int, eyeGapOff: int)

  /**
   * GetEyeOutputViewport: each eye gets half the window's width and all its
   * height, at the top; the left eye starts at 0, the right one half a
   * window plus the eye gap further on.
   */
  function EyeOutputViewport(d: ExtendedDisplay, eye: Eye): (v: Viewport)
    ensures v.y == 0 && v.height == U32(d.windowHeight) && v.width == U32(CDiv(d.windowWidth, 2))
    ensures eye == Left ==> v.x == 0
    ensures eye == Right ==> v.x == U32(CDiv(d.windowWidth, 2) + d.eyeGapOff)
  {
    var half := CDiv(d.windowWidth, 2);
    Viewport(if eye == Left then 0 else U32(half + d.eyeGapOff), 0, U32(half), U32(d.windowHeight))
  }

  /**
   * For a window of non-negative width and a non-negative gap that fits in
   * 32 bits, the two eyes are equal in size, side by side, the right one
   * starting exactly the gap after the left one ends, and both together
   * with the gap span the window plus the gap at most.
   */
  lemma EyesSideBySide(d: ExtendedDisplay)
    requires 0 <= d.windowWidth < WordRange && 0 <= d.eyeGapOff
    requires d.windowWidth / 2 + d.eyeGapOff < WordRange
    ensures var l, r := EyeOutputViewport(d, Left), EyeOutputViewport(d, Right);
      l.width == r.width && l.height == r.height && l.y == r.y &&
      r.x == l.x + l.width + d.eyeGapOff && r.x + r.width <= d.windowWidth + d.eyeGapOff
  {
  }

  /** An HmdQuaternion_t. */
  datatype Quaternion = Quaternion(w: real, x: real, y: real, z: real)

  /** The parts of TrackingInfo the component reads. */
  datatype TrackingInfo = TrackingInfo(frameIndex: nat, clientTime: nat, headOrientation: Quaternion)

  /** TrackingHistoryFrame: the tracking info and the 3x3 block of its recentred head rotation, row by row. */
  datatype HistoryFrame = HistoryFrame(info: TrackingInfo, rotation: seq<real>)

  /** The per-eye layer SubmitLayer stores (the texture handles it is given). */
  datatype LayerPerEye = LayerPerEye(texture: nat, depthTexture: nat)

  /** The squared distance between two 3x3 blocks, entry by entry. */
  function Distance(a: seq<real>, b: seq<real>): (d: real)
    requires |a| == |b|
    ensures d >= 0.0
    ensures a == b ==> d == 0.0
  {
    if |a| == 0 then 0.0
    else
      var e := a[0] - b[0];
      Square(e);
      e * e + Distance(a[1..], b[1..])
  }

  /** A square is never negative. */
  lemma Square(x: real)
    ensures x * x >= 0.0
  {
    if x > 0.0 {
      MulPositive(x, x);
    } else if x < 0.0 {
      var y := -x;
      MulPositive(y, y);
      assert x * x == y * y;
    }
  }

  lemma MulPositive(a: real, b: real)
    requires a > 0.0 && b > 0.0
    ensures a * b > 0.0
  {
  }

  /** The distance of each frame's rotation from the submitted pose's. */
  function Distances(buffer: seq<HistoryFrame>, pose: seq<real>): (ds: seq<real>)
    requires forall k :: 0 <= k < |buffer| ==> |buffer[k].rotation| == |pose|
    ensures |ds| == |buffer| && forall k :: 0 <= k < |buffer| ==> ds[k] == Distance(buffer[k].rotation, pose)
  {
    seq(|buffer|, k requires 0 <= k < |buffer| => Distance(buffer[k].rotation, pose))
  }

  /** Some distance is below FarAway. */
  predicate AnyNear(ds: seq<real>)
  {
    exists j :: 0 <= j < |ds| && ds[j] < FarAway
  }

  /**
   * Where the search for the submitted frame settles: the first of the
   * smallest distances, when one is below FarAway; the first frame
   * otherwise.
   */
  predicate Settles(ds: seq<real>, m: nat)
  {
    m < |ds| &&
    if AnyNear(ds) then
      ds[m] < FarAway && (forall j :: 0 <= j < |ds| ==> ds[m] <= ds[j]) && (forall j :: 0 <= j < m ==> ds[m] < ds[j])
    else m == 0
  }

  /**
   * The frame SubmitLayer settles on: from a non-empty history, the frame
   * where the nearest-rotation search settles; from an empty one, frame 0
   * at time 0 with a zero rotation.
   */
  ghost predicate Picked(buffer: seq<HistoryFrame>, pose: seq<real>, frameIndex: nat, clientTime: nat, rotation: Quaternion)
    requires forall k :: 0 <= k < |buffer| ==> |buffer[k].rotation| == |pose|
  {
    if |buffer| == 0 then frameIndex == 0 && clientTime == 0 && rotation == Quaternion(0.0, 0.0, 0.0, 0.0)
    else exists m: nat :: Settles(Distances(buffer, pose), m) && buffer[m].info == TrackingInfo(frameIndex, clientTime, rotation)
  }

  /**
   * When some history frame has exactly the submitted rotation, the search
   * settles on a frame at distance zero.
   */
  lemma ExactRotationSettles(buffer: seq<HistoryFrame>, pose: seq<real>, k: nat, m: nat)
    requires forall j :: 0 <= j < |buffer| ==> |buffer[j].rotation| == |pose|
    requires k < |buffer| && buffer[k].rotation == pose
    requires Settles(Distances(buffer, pose), m)
    ensures Distance(buffer[m].rotation, pose) == 0.0
  {
    var ds := Distances(buffer, pose);
    assert ds[k] == 0.0;
    assert AnyNear(ds);
  }

  /** HobovrDriverDirectModeComponent: the pose history and the frame being submitted. */
  class DirectMode {
    var poseBuffer: seq<HistoryFrame>
    var submitLayer: nat
    var submitLayers: seq<(LayerPerEye, LayerPerEye)>
    var framePoseRotation: Quaternion
    var prevFramePoseRotation: Quaternion
    var submitFrameIndex: nat
    var submitClientTime: nat
    var prevSubmitFrameIndex: nat
    var prevSubmitClientTime: nat
    var lastReferencedFrameIndex: nat
    var lastReferencedClientTime: nat

    /**
     * The history holds at most ten frames, no two neighbours with the same
     * frame index, each with a 3x3 rotation; the layers submitted so far
     * are counted by submitLayer, which stays within MAX_LAYERS.
     */
    predicate Valid()
      reads this
    {
      |poseBuffer| <= HistoryLength &&
      (forall k :: 0 < k < |poseBuffer| ==> poseBuffer[k - 1].info.frameIndex != poseBuffer[k].info.frameIndex) &&
      (forall k :: 0 <= k < |poseBuffer| ==> |poseBuffer[k].rotation| == 9) &&
      |submitLayers| == submitLayer <= MaxLayers
    }

    /**
     * The constructor: no history, no layer submitted, the last referenced
     * frame and time 0. The submitted frame's members, which the source
     * leaves uninitialised, start at 0 here.
     */
    constructor()
      ensures Valid() && poseBuffer == [] && submitLayer == 0
      ensures lastReferencedFrameIndex == 0 && lastReferencedClientTime == 0
    {
      poseBuffer := [];
      submitLayer := 0;
      submitLayers := [];
      framePoseRotation := Quaternion(0.0, 0.0, 0.0, 0.0);
      prevFramePoseRotation := Quaternion(0.0, 0.0, 0.0, 0.0);
      submitFrameIndex := 0;
      submitClientTime := 0;
      prevSubmitFrameIndex := 0;
      prevSubmitClientTime := 0;
      lastReferencedFrameIndex := 0;
      lastReferencedClientTime := 0;
    }

    /**
     * OnPoseUpdated: the frame joins the history when the history is empty
     * or ends with another frame index; beyond ten frames the oldest is
     * dropped. `rotation` is the recentred head rotation's 3x3 block.
     */
    method OnPoseUpdated(info: TrackingInfo, rotation: seq<real>)
      requires Valid() && |rotation| == 9
      modifies this
      ensures Valid()
      ensures var grown := if |old(poseBuffer)| == 0 || old(poseBuffer)[|old(poseBuffer)| - 1].info.frameIndex != info.frameIndex
          then old(poseBuffer) + [HistoryFrame(info, rotation)] else old(poseBuffer);
        poseBuffer == if |grown| > HistoryLength then grown[1..] else grown
      ensures |poseBuffer| > 0 && poseBuffer[|poseBuffer| - 1].info.frameIndex == info.frameIndex
      ensures lastReferencedFrameIndex == info.frameIndex && lastReferencedClientTime == info.clientTime
      ensures submitLayer == old(submitLayer) && submitLayers == old(submitLayers)
      ensures submitFrameIndex == old(submitFrameIndex) && prevSubmitFrameIndex == old(prevSubmitFrameIndex)
      ensures submitClientTime == old(submitClientTime) && prevSubmitClientTime == old(prevSubmitClientTime)
      ensures framePoseRotation == old(framePoseRotation) && prevFramePoseRotation == old(prevFramePoseRotation)
    {
      var history := HistoryFrame(info, rotation);
      if |poseBuffer| == 0 {
        poseBuffer := poseBuffer + [history];
      } else if poseBuffer[|poseBuffer| - 1].info.frameIndex != info.frameIndex {
        poseBuffer := poseBuffer + [history];
      }
      if |poseBuffer| > HistoryLength {
        poseBuffer := poseBuffer[1..];
      }
      lastReferencedFrameIndex := info.frameIndex;
      lastReferencedClientTime := info.clientTime;
    }

    /**
     * SubmitLayer: the first layer of a frame looks up the history frame
     * whose rotation is nearest the submitted pose and makes it the
     * submitted frame, the previous one moving to prev (an empty history
     * gives frame 0); the layer is kept while fewer than MAX_LAYERS are,
     * and dropped otherwise.
     */
    method SubmitLayer(perEye: (LayerPerEye, LayerPerEye), pose: seq<real>)
      requires Valid() && |pose| == 9
      modifies this
      ensures Valid()
      ensures old(submitLayer) < MaxLayers ==> submitLayers == old(submitLayers) + [perEye]
      ensures old(submitLayer) >= MaxLayers ==> submitLayers == old(submitLayers)
      ensures old(submitLayer) > 0 ==> submitFrameIndex == old(submitFrameIndex) && prevSubmitFrameIndex == old(prevSubmitFrameIndex)
      ensures old(submitLayer) > 0 ==> submitClientTime == old(submitClientTime) && prevSubmitClientTime == old(prevSubmitClientTime)
      ensures old(submitLayer) > 0 ==> framePoseRotation == old(framePoseRotation) && prevFramePoseRotation == old(prevFramePoseRotation)
      ensures old(submitLayer) == 0 ==> Picked(poseBuffer, pose, submitFrameIndex, submitClientTime, framePoseRotation)
      ensures old(submitLayer) == 0 && |poseBuffer| > 0 ==>
        prevSubmitFrameIndex == old(submitFrameIndex) && prevSubmitClientTime == old(submitClientTime) &&
        prevFramePoseRotation == old(framePoseRotation)
      ensures old(submitLayer) == 0 && |poseBuffer| == 0 ==>
        prevSubmitFrameIndex == old(prevSubmitFrameIndex) && prevSubmitClientTime == old(prevSubmitClientTime) &&
        prevFramePoseRotation == old(prevFramePoseRotation)
      ensures poseBuffer == old(poseBuffer)
      ensures lastReferencedFrameIndex == old(lastReferencedFrameIndex) && lastReferencedClientTime == old(lastReferencedClientTime)
    {
      if submitLayer == 0 {
        PickSubmittedFrame(pose);
      }
      if submitLayer < MaxLayers {
        submitLayers := submitLayers + [perEye];
        submitLayer := submitLayer + 1;
      }
    }

    /** The first-layer part of SubmitLayer: the history frame nearest the pose becomes the submitted frame. */
    method PickSubmittedFrame(pose: seq<real>)
      requires Valid() && |pose| == 9
      modifies this
      ensures Valid()
      ensures Picked(poseBuffer, pose, submitFrameIndex, submitClientTime, framePoseRotation)
      ensures |poseBuffer| > 0 ==> prevSubmitFrameIndex == old(submitFrameIndex) && prevSubmitClientTime == old(submitClientTime)
      ensures |poseBuffer| > 0 ==> prevFramePoseRotation == old(framePoseRotation)
      ensures |poseBuffer| == 0 ==> prevSubmitFrameIndex == old(prevSubmitFrameIndex) && prevSubmitClientTime == old(prevSubmitClientTime)
      ensures |poseBuffer| == 0 ==> prevFramePoseRotation == old(prevFramePoseRotation)
      ensures poseBuffer == old(poseBuffer) && submitLayer == old(submitLayer) && submitLayers == old(submitLayers)
      ensures lastReferencedFrameIndex == old(lastReferencedFrameIndex) && lastReferencedClientTime == old(lastReferencedClientTime)
    {
      var found := Nearest(poseBuffer, pose);
      if found.Some? {
        var frame := poseBuffer[found.value];
        prevSubmitFrameIndex := submitFrameIndex;
        prevSubmitClientTime := submitClientTime;
        submitFrameIndex := frame.info.frameIndex;
        submitClientTime := frame.info.clientTime;
        prevFramePoseRotation := framePoseRotation;
        framePoseRotation := frame.info.headOrientation;
      } else {
        submitFrameIndex := 0;
        submitClientTime := 0;
        framePoseRotation := Quaternion(0.0, 0.0, 0.0, 0.0);
      }
    }

    /**
     * The search of SubmitLayer: minIt starts at the first frame and
     * moves to every frame strictly nearer than the best so far, which
     * starts at FarAway; an empty history finds nothing.
     */
    static method Nearest(buffer: seq<HistoryFrame>, pose: seq<real>) returns (found: Option<nat>)
      requires forall k :: 0 <= k < |buffer| ==> |buffer[k].rotation| == |pose|
      ensures found.None? <==> |buffer| == 0
      ensures found.Some? ==> Settles(Distances(buffer, pose), found.value)
    {
      ghost var ds := Distances(buffer, pose);
      var minDiff := FarAway;
      var minIndex: nat := 0;
      var index := 0;
      while index < |buffer|
        invariant index <= |buffer|
        invariant index == 0 ==> minIndex == 0 && minDiff == FarAway
        invariant index > 0 ==> Settles(ds[..index], minIndex)
        invariant index > 0 ==> minDiff == if AnyNear(ds[..index]) then ds[minIndex] else FarAway
      {
        var distance := Distance(buffer[index].rotation, pose);
        NearestStep(ds, index, minIndex, minDiff);
        if minDiff > distance {
          minIndex := index;
          minDiff := distance;
        }
        index := index + 1;
      }
      if |buffer| == 0 {
        found := None;
      } else {
        assert ds[..index] == ds;
        found := Some(minIndex);
      }
    }

    /**
     * Present: hands over the layers submitted for this frame and starts
     * counting afresh; the frame is discarded as a duplicate when the
     * submitted frame index has not moved on.
     */
    method Present() returns (layerCount: nat, layers: seq<(LayerPerEye, LayerPerEye)>, discarded: bool)
      requires Valid()
      modifies this
      ensures Valid()
      ensures layerCount == old(submitLayer) && layers == old(submitLayers) && layerCount <= MaxLayers
      ensures submitLayer == 0 && submitLayers == []
      ensures discarded <==> prevSubmitFrameIndex == submitFrameIndex
      ensures poseBuffer == old(poseBuffer) && submitFrameIndex == old(submitFrameIndex) && prevSubmitFrameIndex == old(prevSubmitFrameIndex)
      ensures submitClientTime == old(submitClientTime) && prevSubmitClientTime == old(prevSubmitClientTime)
      ensures framePoseRotation == old(framePoseRotation) && prevFramePoseRotation == old(prevFramePoseRotation)
      ensures lastReferencedFrameIndex == old(lastReferencedFrameIndex) && lastReferencedClientTime == old(lastReferencedClientTime)
    {
      layerCount := submitLayer;
      layers := submitLayers;
      submitLayer := 0;
      submitLayers := [];
      discarded := prevSubmitFrameIndex == submitFrameIndex;
    }

    /** GetNextSwapTextureSetIndex: each of the two indices steps on by one, modulo 3. */
    method GetNextSwapTextureSetIndex(indices: array<int>)
      requires indices.Length == 2 && forall k :: 0 <= k < 2 ==> 0 <= indices[k] < WordRange
      modifies indices
      ensures forall k :: 0 <= k < 2 ==> indices[k] == NextSwap(old(indices[k]))
    {
      indices[0] := U32(indices[0] + 1);
      indices[0] := indices[0] % 3;
      indices[1] := U32(indices[1] + 1);
      indices[1] := indices[1] % 3;
    }
  }

  /** The index after i: i + 1 as a uint32_t, modulo 3. */
  function NextSwap(i: int): (r: nat)
    ensures r < 3
  {
    U32(i + 1) % 3
  }

  /** From any of the three textures, the index visits the other two and comes back after three steps. */
  lemma SwapCycles(i: nat)
    requires i < 3
    ensures NextSwap(i) == (i + 1) % 3 && NextSwap(i) != i
    ensures NextSwap(NextSwap(i)) != i && NextSwap(NextSwap(NextSwap(i))) == i
  {
  }

  /** One step of the search: the settled index for ds[..index + 1] follows from the one for ds[..index]. */
  lemma NearestStep(ds: seq<real>, index: nat, minIndex: nat, minDiff: real)
    requires index < |ds|
    requires index == 0 ==> minIndex == 0 && minDiff == FarAway
    requires index > 0 ==> Settles(ds[..index], minIndex)
    requires index > 0 ==> minDiff == if AnyNear(ds[..index]) then ds[minIndex] else FarAway
    ensures var m := if minDiff > ds[index] then index else minIndex;
      var d := if minDiff > ds[index] then ds[index] else minDiff;
      Settles(ds[..index + 1], m) && d == if AnyNear(ds[..index + 1]) then ds[m] else FarAway
  {
    var s, t := ds[..index], ds[..index + 1];
    assert forall j :: 0 <= j < index ==> t[j] == s[j];
    assert t[index] == ds[index];
    if AnyNear(s) {
      var j :| 0 <= j < |s| && s[j] < FarAway;
      assert t[j] < FarAway;
    }
    if ds[index] < FarAway {
      assert AnyNear(t);
    }
    if AnyNear(t) && !AnyNear(s) {
      var j :| 0 <= j < |t| && t[j] < FarAway;
      assert j == index;
    }
  }
}
