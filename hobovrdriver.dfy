/**
 * The SteamVR server driver (driver/src/driver_hobovr.cpp): the settings
 * manager device "trsm0" that takes 523-byte requests from the server,
 * and the server driver that creates the devices of the layout, hands each
 * tracking packet to them in slices, and rebuilds its device list when the
 * settings manager announces a new layout.
 *
 * A request is seen as the words the driver reads from it (uint32_t); a
 * tracking packet as the floats it reads. Every float ratio the driver
 * stores is kept as the pair of words it is computed from.
 */
module HobovrDriver {
  import opened Wrappers
  import opened Framing
  import opened SockUtil
  import opened DeviceList
  import UduTemplate
  import Poses

  /** Request types understood by the settings manager (Emsg_*). */
  const MsgIpd: nat := 10
  const MsgUdu: nat := 20
  const MsgPoseTimeOffset: nat := 30
  const MsgDistortion: nat := 40
  const MsgEyeGap: nat := 50
  const MsgSetSelfPose: nat := 60

  /** The only request length the settings manager accepts: 130 words and the terminator. */
  const RequestLength: int := 523

  /** HobovrVendorEvents::UduChange, the vendor event announcing a new layout. */
  const UduChangeEvent: nat := 19998

  const Accepted: string := "2000"
  const NotRecognized: string := "-100"

  /** The serial of the settings manager device. */
  const ManagerSerial: string := "trsm0"

  const WordRange: nat := 0x1_0000_0000

  /** Every value is a 32-bit word. */
  predicate Words(data: seq<nat>)
  {
    forall i :: 0 <= i < |data| ==> data[i] < WordRange
  }

  /** A request seen as its whole 32-bit words. */
  predicate WordView(len: int, data: seq<nat>)
  {
    |data| == (if len < 0 then 0 else len / 4) && Words(data)
  }

  /** A uint32_t read into an int: two's complement, values from 2^31 on wrap to negatives. */
  function ToInt32(w: nat): (r: int)
    requires w < WordRange
    ensures -0x8000_0000 <= r < 0x8000_0000
    ensures (w - r) % WordRange == 0
  {
    if w < 0x8000_0000 then w else w - WordRange
  }

  /** The layout letter of a device type code; an unknown code leaves the letter empty. */
  function TypeName(code: nat): (r: string)
    ensures r == "" || KindOf(r).Some?
    ensures r == "" <==> code > 2
  {
    if code == 0 then "h" else if code == 1 then "c" else if code == 2 then "t" else ""
  }

  /**
   * The pairs (type letter, pose size) of the first n slots of a udu
   * request; the size word is read into an int, so a word from 2^31 on
   * gives a negative size.
   */
  function PairsFrom(data: seq<nat>, n: nat): (r: seq<(string, int)>)
    requires Words(data) && 2 + 2 * n <= |data|
    ensures |r| == n
    ensures forall i :: 0 <= i < n ==> r[i] == (TypeName(data[2 + 2 * i]), ToInt32(data[3 + 2 * i]))
    ensures forall i :: 0 <= i < n ==> (r[i].1 < 0 <==> data[3 + 2 * i] >= 0x8000_0000)
  {
    seq(n, i requires 0 <= i < n => (TypeName(data[2 + 2 * i]), ToInt32(data[3 + 2 * i])))
  }

  /**
   * The udu decode as written: it reads as many slots as the count word
   * says, with no bound; a count that reaches past the request's words is
   * a read out of bounds, here None.
   */
  function UduPairsAsWritten(data: seq<nat>): (r: Option<seq<(string, int)>>)
    requires |data| >= 2 && Words(data)
    ensures r.None? <==> ToInt32(data[1]) > 0 && 2 + 2 * ToInt32(data[1]) > |data|
    ensures r.Some? ==> |r.value| == (if ToInt32(data[1]) <= 0 then 0 else ToInt32(data[1]))
  {
    var count := ToInt32(data[1]);
    if count <= 0 then Some([])
    else if 2 + 2 * count > |data| then None
    else Some(PairsFrom(data, count))
  }

  /** The slots a request has room for after its type and count words. */
  function Room(data: seq<nat>): nat
    requires |data| >= 2
  {
    (|data| - 2) / 2
  }

  /** The udu decode with the count bounded by the slots the request holds. */
  function UduPairs(data: seq<nat>): (r: seq<(string, int)>)
    requires |data| >= 2 && Words(data)
    ensures |r| <= Room(data)
    ensures forall i :: 0 <= i < |r| ==> r[i] == (TypeName(data[2 + 2 * i]), ToInt32(data[3 + 2 * i]))
  {
    var count := ToInt32(data[1]);
    PairsFrom(data, if count <= 0 then 0 else if count > Room(data) then Room(data) else count)
  }

  /** Wherever the decode as written stays inside the request, the bounded decode reads the same pairs. */
  lemma UduPairsAgree(data: seq<nat>)
    requires |data| >= 2 && Words(data)
    requires UduPairsAsWritten(data).Some?
    ensures UduPairs(data) == UduPairsAsWritten(data).value
  {
  }

  /** A udu request counting 65 devices: the decode as written reads past its 130 words, the bounded one stops at 64 slots. */
  lemma UduOverread()
    ensures var data := [MsgUdu, 65] + UduTemplate.Zeros(128);
      |data| == 130 && UduPairsAsWritten(data).None? && |UduPairs(data)| == 64
  {
    var data := [MsgUdu, 65] + UduTemplate.Zeros(128);
    assert data[1] == 65;
  }

  /** Every word of a udu poser's layout request is below 2^31: small codes, counts and sizes. */
  lemma {:induction false} PacketWords(types: seq<char>)
    requires forall i :: 0 <= i < |types| ==> UduTemplate.IsType(types[i])
    requires |types| <= UduTemplate.PayloadWords / 2
    ensures var data := UduTemplate.UduPacket(types).value;
      Words(data) && forall j :: 0 <= j < |data| ==> data[j] < 0x8000_0000
  {
    var data := UduTemplate.UduPacket(types).value;
    forall j | 0 <= j < |data|
      ensures data[j] < 0x8000_0000
    {
      if 2 <= j < 2 + 2 * |types| {
        var i := (j - 2) / 2;
        assert j == 2 + 2 * i || j == 3 + 2 * i;
        assert UduTemplate.TypeCode(types[i]).1 <= 22;
      }
    }
  }

  /**
   * The layout request a udu poser sends decodes to one pair per device,
   * in order: the device's type letter and the size of its record.
   */
  lemma UduRoundTrip(types: seq<char>)
    requires forall i :: 0 <= i < |types| ==> UduTemplate.IsType(types[i])
    requires |types| <= UduTemplate.PayloadWords / 2
    ensures var data := UduTemplate.UduPacket(types).value;
      |data| == 130 && Words(data) && UduPairsAsWritten(data) == Some(UduPairs(data)) &&
      |UduPairs(data)| == |types| &&
      forall i :: 0 <= i < |types| ==>
        UduPairs(data)[i].0 == [types[i]] &&
        UduPairs(data)[i].1 == Poses.Len(UduTemplate.DefaultRecord(types[i]))
  {
    var data := UduTemplate.UduPacket(types).value;
    PacketWords(types);
    assert ToInt32(data[1]) == |types|;
    forall i | 0 <= i < |types|
      ensures TypeName(data[2 + 2 * i]) == [types[i]]
      ensures ToInt32(data[3 + 2 * i]) == Poses.Len(UduTemplate.DefaultRecord(types[i]))
    {
      assert data[2 + 2 * i] == UduTemplate.TypeCode(types[i]).0;
      assert data[3 + 2 * i] == UduTemplate.TypeCode(types[i]).1;
    }
  }

  /**
   * The device list the driver rebuilds from a poser's layout request has
   * one device per device of the poser, of the same type and in order.
   */
  lemma PoserLayoutKinds(types: seq<char>)
    requires forall i :: 0 <= i < |types| ==> UduTemplate.IsType(types[i])
    requires |types| <= UduTemplate.PayloadWords / 2
    ensures Words(UduTemplate.UduPacket(types).value)
    ensures var kinds := KnownKinds(Names(UduPairs(UduTemplate.UduPacket(types).value)));
      |kinds| == |types| && forall i :: 0 <= i < |types| ==> Letter(kinds[i]) == [types[i]]
  {
    UduRoundTrip(types);
    var names := Names(UduPairs(UduTemplate.UduPacket(types).value));
    forall i | 0 <= i < |names|
      ensures KindOf(names[i]).Some? && Letter(KindOf(names[i]).value) == [types[i]]
    {
      assert names[i] == [types[i]];
    }
    AllKnown(names);
  }

  /** The settings the settings manager writes. */
  datatype SettingKey = Ipd | PoseTimeOffset | DistortionK1 | DistortionK2 | ZoomWidth | ZoomHeight | EyeGapOffset

  /** A float setting as the pair of words it is the ratio of, or an int setting. */
  datatype Setting = Ratio(num: nat, den: nat) | Int32(value: int)

  /** A position the settings manager reports for itself, each coordinate a ratio. */
  datatype Position = Position(x: Setting, y: Setting, z: Setting)

  /** The settings a request type writes. */
  function KeysOf(msg: nat): (r: set<SettingKey>)
    ensures r != {} ==> msg in {MsgIpd, MsgPoseTimeOffset, MsgDistortion, MsgEyeGap}
  {
    if msg == MsgIpd then {Ipd}
    else if msg == MsgPoseTimeOffset then {PoseTimeOffset}
    else if msg == MsgDistortion then {DistortionK1, DistortionK2, ZoomWidth, ZoomHeight}
    else if msg == MsgEyeGap then {EyeGapOffset}
    else {}
  }

  /** The value a request gives a setting: the ratio of two of its words, or its second word as an int32. */
  function ValueOf(key: SettingKey, data: seq<nat>): Setting
    requires |data| >= 9 && data[1] < WordRange
  {
    match key
    case Ipd => Ratio(data[1], data[2])
    case PoseTimeOffset => Ratio(data[1], data[2])
    case DistortionK1 => Ratio(data[1], data[2])
    case DistortionK2 => Ratio(data[3], data[4])
    case ZoomWidth => Ratio(data[5], data[6])
    case ZoomHeight => Ratio(data[7], data[8])
    case EyeGapOffset => Int32(ToInt32(data[1]))
  }

  /** The reply to a request of the given type. */
  function Reply(msg: nat): (r: string)
    ensures r == Accepted <==> msg in {MsgIpd, MsgUdu, MsgPoseTimeOffset, MsgDistortion, MsgEyeGap, MsgSetSelfPose}
  {
    if msg in {MsgIpd, MsgUdu, MsgPoseTimeOffset, MsgDistortion, MsgEyeGap, MsgSetSelfPose} then Accepted else NotRecognized
  }

  /** Shared between the settings manager and the server driver: the layout buffer and the vendor events posted. */
  class Globals {
    /** g_vpUduChangeBuffer: the last layout received, as (type letter, pose size) pairs. */
    var uduChangeBuffer: seq<(string, int)>
    /** The events the host has yet to deliver to RunFrame. */
    var events: seq<nat>

    constructor()
      ensures uduChangeBuffer == [] && events == []
    {
      uduChangeBuffer := [];
      events := [];
    }
  }

  /** HobovrTrackingRef_SettManager: a tracking reference that applies setting requests. */
  class SettManager {
    const globals: Globals
    var settings: map<SettingKey, Setting>
    var replies: seq<string>
    var poseUpdates: seq<Position>
    /** m_unObjectId; None is k_unTrackedDeviceIndexInvalid. */
    var objectId: Option<nat>

    constructor(g: Globals)
      ensures globals == g && settings == map[] && replies == [] && poseUpdates == [] && objectId == None
    {
      globals := g;
      settings := map[];
      replies := [];
      poseUpdates := [];
      objectId := None;
    }

    /** The host hands the device its index. */
    method Activate(id: nat)
      modifies this
      ensures objectId == Some(id)
      ensures settings == old(settings) && replies == old(replies) && poseUpdates == old(poseUpdates)
    {
      objectId := Some(id);
    }

    /**
     * One request: any length but 523 is ignored; otherwise the type word
     * selects the settings written, the layout stored and announced, or the
     * pose reported, and every known type is answered "2000", any other "-100".
     */
    method OnPacket(len: int, data: seq<nat>)
      requires WordView(len, data)
      modifies this, globals
      ensures len != RequestLength ==> unchanged(this) && unchanged(globals)
      ensures len == RequestLength ==> replies == old(replies) + [Reply(data[0])]
      ensures len == RequestLength ==> forall k :: k in KeysOf(data[0]) ==> k in settings && settings[k] == ValueOf(k, data)
      ensures len == RequestLength ==> forall k :: k !in KeysOf(data[0]) ==> (k in settings <==> k in old(settings))
      ensures len == RequestLength ==> forall k :: k !in KeysOf(data[0]) && k in settings ==> settings[k] == old(settings)[k]
      ensures len == RequestLength && data[0] == MsgSetSelfPose && objectId.Some? ==>
        poseUpdates == old(poseUpdates) + [Position(Ratio(data[1], data[2]), Ratio(data[3], data[4]), Ratio(data[5], data[6]))]
      ensures len != RequestLength || data[0] != MsgSetSelfPose || objectId.None? ==> poseUpdates == old(poseUpdates)
      ensures len == RequestLength && data[0] == MsgUdu ==>
        globals.uduChangeBuffer == UduPairs(data) && globals.events == old(globals.events) + [UduChangeEvent]
      ensures data == [] || data[0] != MsgUdu ==> unchanged(globals)
      ensures objectId == old(objectId)
    {
      if len != RequestLength {
        return;
      }
      var msg := data[0];
      if msg == MsgIpd {
        settings := settings[Ipd := Ratio(data[1], data[2])];
      } else if msg == MsgUdu {
        globals.uduChangeBuffer := UduPairs(data);
        globals.events := globals.events + [UduChangeEvent];
      } else if msg == MsgSetSelfPose {
        if objectId.Some? {
          poseUpdates := poseUpdates + [Position(Ratio(data[1], data[2]), Ratio(data[3], data[4]), Ratio(data[5], data[6]))];
        }
      } else if msg == MsgDistortion {
        settings := settings[DistortionK1 := Ratio(data[1], data[2])][DistortionK2 := Ratio(data[3], data[4])]
          [ZoomWidth := Ratio(data[5], data[6])][ZoomHeight := Ratio(data[7], data[8])];
      } else if msg == MsgEyeGap {
        settings := settings[EyeGapOffset := Int32(ToInt32(data[1]))];
      } else if msg == MsgPoseTimeOffset {
        settings := settings[PoseTimeOffset := Ratio(data[1], data[2])];
      }
      replies := replies + [Reply(msg)];
    }
  }

  /** What Init reports. */
  datatype InitError = InitNone | WebServerFailed | ConfigFailedSanityCheck

  /** The index of the first layout entry that names no device type, or the length when there is none. */
  function FirstUnknown(names: seq<string>): (r: nat)
    ensures r <= |names|
    ensures forall i :: 0 <= i < r ==> KindOf(names[i]).Some?
    ensures r < |names| ==> KindOf(names[r]).None?
  {
    if |names| == 0 then 0
    else if KindOf(names[0]).None? then 0
    else 1 + FirstUnknown(names[1..])
  }

  /** The layout letters of a buffer of pairs. */
  function Names(pairs: seq<(string, int)>): (r: seq<string>)
    ensures |r| == |pairs| && forall i :: 0 <= i < |pairs| ==> r[i] == pairs[i].0
  {
    seq(|pairs|, i requires 0 <= i < |pairs| => pairs[i].0)
  }

  /** No pose size is negative, as the slicing of split_pk needs. */
  predicate Sized(eps: seq<int>)
  {
    forall i :: 0 <= i < |eps| ==> eps[i] >= 0
  }

  /** The pose sizes of a buffer of pairs. */
  function Sizes(pairs: seq<(string, int)>): (r: seq<int>)
    ensures |r| == |pairs| && forall i :: 0 <= i < |pairs| ==> r[i] == pairs[i].1
  {
    seq(|pairs|, i requires 0 <= i < |pairs| => pairs[i].1)
  }

  /** The first device with the given serial, as the std::find_if of the device list update does it. */
  method FindSerial(nodes: seq<Node>, target: string) returns (r: Option<nat>)
    ensures r.Some? ==> r.value < |nodes| && Serial(nodes[r.value]) == target
    ensures r.Some? ==> forall i :: 0 <= i < r.value ==> Serial(nodes[i]) != target
    ensures r.None? ==> forall n :: n in nodes ==> Serial(n) != target
  {
    var i := 0;
    while i < |nodes|
      invariant i <= |nodes|
      invariant forall j :: 0 <= j < i ==> Serial(nodes[j]) != target
    {
      if Serial(nodes[i]) == target {
        return Some(i);
      }
      i := i + 1;
    }
    return None;
  }

  /** Looking a device up by its serial string is looking it up by type and counter. */
  lemma SerialSearch(nodes: seq<Node>, k: Kind, c: nat, r: Option<nat>)
    requires r.Some? ==> r.value < |nodes| && Serial(nodes[r.value]) == SerialOf(k, c)
    requires r.Some? ==> forall i :: 0 <= i < r.value ==> Serial(nodes[i]) != SerialOf(k, c)
    requires r.None? ==> forall n :: n in nodes ==> Serial(n) != SerialOf(k, c)
    ensures r == FindKey(nodes, (k, c))
  {
    forall i | 0 <= i < |nodes|
      ensures Serial(nodes[i]) == SerialOf(k, c) <==> KeyOf(nodes[i]) == (k, c)
    {
      SerialInjective(nodes[i].kind, nodes[i].index, k, c);
    }
    forall n | n in nodes
      ensures Serial(n) == SerialOf(k, c) <==> KeyOf(n) == (k, c)
    {
      SerialInjective(n.kind, n.index, k, c);
    }
  }

  /**
   * The devices `d1` and standby list `s1` are what rebuilding the devices
   * `d0` and standby list `s0` for `layout` gives: one device per entry
   * naming a type, taken back by serial or new, and the others set aside.
   */
  ghost predicate Rebuilt(d0: seq<Node>, s0: seq<Node>, layout: seq<(string, int)>, d1: seq<Node>, s1: seq<Node>)
  {
    Placed(d1, KnownKinds(Names(layout)), s0 + Off(d0)) && StandbyFor(s1, s0 + Off(d0), KnownKinds(Names(layout)))
  }

  /** CServerDriver_hobovr: the devices of the current layout, those set aside, and the receiver's layout. */
  class ServerDriver {
    const globals: Globals
    /** m_vDevices: the devices of the current layout, in layout order. */
    var devices: seq<Node>
    /** m_vStandbyDevices: devices of earlier layouts, powered off. */
    var standby: seq<Node>
    /** The receiver's layout letters and pose sizes (m_vsDevice_list, m_viEps). */
    var deviceList: seq<string>
    var eps: seq<int>
    /** m_bDeviceListSyncEvent: tracking packets are dropped while it is set. */
    var syncing: bool
    /** The serials announced to the host with TrackedDeviceAdded, in order. */
    var added: seq<string>

    /** Active devices powered on, standby ones off, no serial twice, controllers on their hands. */
    predicate DevicesValid()
      reads this
    {
      (forall n :: n in devices ==> n.powered) && (forall n :: n in standby ==> !n.powered) &&
      UniqueKeys(devices + standby) && HandsRight(devices) && HandsRight(standby)
    }

    /** Also: every active device has a slice of the tracking packet. */
    predicate Valid()
      reads this
    {
      DevicesValid() && |devices| <= |eps|
    }

    constructor(g: Globals)
      ensures globals == g && devices == [] && standby == [] && deviceList == [] && eps == []
      ensures !syncing && added == []
    {
      globals := g;
      devices := [];
      standby := [];
      deviceList := [];
      eps := [];
      syncing := false;
      added := [];
    }

    /**
     * The per-type counters and controller_hs after the entries `kinds`:
     * the next device of type k is numbered by its counter.
     */
    static predicate Counters(kinds: seq<Kind>, hmds: nat, controllers: nat, trackers: nat, hand: nat)
    {
      hmds == Count(kinds, Hmd) && controllers == Count(kinds, Controller) && trackers == Count(kinds, Tracker) &&
      hand == Hand(controllers)
    }

    /** Counting one more entry of type k, as the driver's loops do after placing it. */
    static method Advance(k: Kind, ghost kinds: seq<Kind>, hmds: nat, controllers: nat, trackers: nat, hand: nat)
      returns (hmds': nat, controllers': nat, trackers': nat, hand': nat)
      requires Counters(kinds, hmds, controllers, trackers, hand)
      ensures Counters(kinds + [k], hmds', controllers', trackers', hand')
    {
      CountStep(kinds, k, Hmd);
      CountStep(kinds, k, Controller);
      CountStep(kinds, k, Tracker);
      hmds', controllers', trackers', hand' := hmds, controllers, trackers, hand;
      if k == Hmd {
        hmds' := hmds + 1;
      } else if k == Controller {
        HandStep(controllers);
        hand' := if hand == 1 then 0 else 1;
        controllers' := controllers + 1;
      } else {
        trackers' := trackers + 1;
      }
    }

    /** What both device-list loops keep: the devices placed so far, the rest on standby, the serials announced. */
    ghost predicate Progress(kinds: seq<Kind>, pool: seq<Node>, start: seq<string>)
      reads this
    {
      Placed(devices, kinds, pool) && StandbyFor(standby, pool, kinds) && added == start + NewSerials(pool, kinds)
    }

    /**
     * A new device for the next entry, of type k with counter c (and the
     * current controller_hs for a controller), announced to the host.
     */
    method CreateDevice(k: Kind, c: nat, hand: nat, ghost kinds: seq<Kind>, ghost pool: seq<Node>, ghost start: seq<string>)
      requires Progress(kinds, pool, start)
      requires c == Count(kinds, k) && hand == Hand(Count(kinds, Controller))
      requires FindKey(pool, (k, c)).None?
      modifies this
      ensures Progress(kinds + [k], pool, start)
      ensures devices == old(devices) + [Node(k, c, if k == Controller then hand else 0, true)]
      ensures standby == old(standby) && added == old(added) + [SerialOf(k, c)]
      ensures deviceList == old(deviceList) && eps == old(eps) && syncing == old(syncing)
    {
      FreshLast(kinds, k);
      StandbyFinds(standby, pool, kinds, k);
      PlaceNew(devices, standby, kinds, pool, k);
      NewSerialsStep(pool, kinds, k);
      AppendAssoc(start, NewSerials(pool, kinds), [SerialOf(k, c)]);
      devices := devices + [Node(k, c, if k == Controller then hand else 0, true)];
      added := added + [SerialOf(k, c)];
    }

    /** The standby device at p, which has the next entry's serial, powered on and made active again. */
    method TakeBack(p: nat, ghost k: Kind, ghost kinds: seq<Kind>, ghost pool: seq<Node>, ghost start: seq<string>)
      requires Progress(kinds, pool, start) && UniqueKeys(pool)
      requires FindKey(standby, (k, Count(kinds, k))) == Some(p)
      modifies this
      ensures Progress(kinds + [k], pool, start)
      ensures devices == old(devices) + [old(standby)[p].(powered := true)]
      ensures standby == old(standby)[..p] + old(standby)[p + 1..] && added == old(added)
      ensures deviceList == old(deviceList) && eps == old(eps) && syncing == old(syncing)
    {
      PlaceReused(devices, standby, kinds, pool, k, p);
      StandbyFinds(standby, pool, kinds, k);
      NewSerialsStep(pool, kinds, k);
      AppendEmpty(NewSerials(pool, kinds));
      devices := devices + [standby[p].(powered := true)];
      standby := standby[..p] + standby[p + 1..];
    }

    /** One entry of type k with counter c: the standby device with its serial if there is one, else a new device. */
    method PlaceEntry(k: Kind, c: nat, hand: nat, ghost kinds: seq<Kind>, ghost pool: seq<Node>, ghost start: seq<string>)
      requires Progress(kinds, pool, start) && UniqueKeys(pool)
      requires c == Count(kinds, k) && hand == Hand(Count(kinds, Controller))
      modifies this
      ensures Progress(kinds + [k], pool, start)
      ensures deviceList == old(deviceList) && eps == old(eps) && syncing == old(syncing)
    {
      var found := FindSerial(standby, SerialOf(k, c));
      SerialSearch(standby, k, c, found);
      if found.Some? {
        TakeBack(found.value, k, kinds, pool, start);
      } else {
        StandbyFinds(standby, pool, kinds, k);
        CreateDevice(k, c, hand, kinds, pool, start);
      }
    }

    /** With the devices placed for a whole layout, the device invariant holds. */
    lemma Settled(kinds: seq<Kind>, pool: seq<Node>, start: seq<string>)
      requires Progress(kinds, pool, start) && HandsRight(pool) && forall n :: n in pool ==> !n.powered
      ensures DevicesValid()
    {
      UniqueAcross(devices, standby, kinds, pool);
      PlacedHands(devices, kinds, pool);
      PlacedUnique(devices, kinds, pool);
    }

    /**
     * Init: with the receiver started on the layout (`manifest`, one pose
     * size per entry), create one device per entry, stopping at the first
     * entry that names no type; then add the settings manager. A receiver
     * that fails to start ends Init at once.
     */
    method Init(manifest: seq<string>, sizes: seq<nat>, socketStarts: bool) returns (err: InitError)
      requires devices == [] && standby == [] && |manifest| == |sizes|
      modifies this
      ensures !socketStarts ==> err == WebServerFailed && unchanged(this)
      ensures socketStarts ==> deviceList == manifest && eps == sizes && standby == [] && syncing == old(syncing)
      ensures socketStarts ==> Placed(devices, KnownKinds(manifest[..FirstUnknown(manifest)]), [])
      ensures socketStarts ==> (err == ConfigFailedSanityCheck <==> FirstUnknown(manifest) < |manifest|)
      ensures socketStarts ==> (err == InitNone <==> FirstUnknown(manifest) == |manifest|)
      ensures socketStarts && err == InitNone ==>
        added == old(added) + NewSerials([], KnownKinds(manifest)) + [ManagerSerial]
      ensures socketStarts && err != InitNone ==>
        added == old(added) + NewSerials([], KnownKinds(manifest[..FirstUnknown(manifest)]))
      ensures Valid()
    {
      if !socketStarts {
        return WebServerFailed;
      }
      deviceList, eps := manifest, sizes;
      var complete := AddManifest(manifest);
      if !complete {
        return ConfigFailedSanityCheck;
      }
      assert manifest[..FirstUnknown(manifest)] == manifest;
      added := added + [ManagerSerial];
      return InitNone;
    }

    /** The device loop of Init: a new device per entry until an entry names no type. */
    method AddManifest(manifest: seq<string>) returns (complete: bool)
      requires devices == [] && standby == []
      modifies this
      ensures complete <==> FirstUnknown(manifest) == |manifest|
      ensures Progress(KnownKinds(manifest[..FirstUnknown(manifest)]), [], old(added)) && standby == []
      ensures DevicesValid() && |devices| <= FirstUnknown(manifest)
      ensures deviceList == old(deviceList) && eps == old(eps) && syncing == old(syncing)
    {
      var hmds: nat, controllers: nat, trackers: nat, hand: nat := 0, 0, 0, 1;
      ghost var kinds: seq<Kind> := [];
      ghost var start := added;
      assert StandbyFor(standby, [], kinds);
      assert manifest[..0] == [];
      var i := 0;
      while i < |manifest|
        invariant Building(manifest, i, kinds, start, hmds, controllers, trackers, hand, old(deviceList), old(eps), old(syncing))
      {
        var entry := KindOf(manifest[i]);
        if entry.None? {
          FinishManifest(manifest, i, kinds, start, hmds, controllers, trackers, hand, old(deviceList), old(eps), old(syncing));
          return false;
        }
        hmds, controllers, trackers, hand, kinds := AddEntry(manifest, i, hmds, controllers, trackers, hand, kinds, start,
          old(deviceList), old(eps), old(syncing));
        i := i + 1;
      }
      FinishManifest(manifest, i, kinds, start, hmds, controllers, trackers, hand, old(deviceList), old(eps), old(syncing));
      return true;
    }

    /**
     * What the device loop of Init keeps after its first i entries, all of
     * which name a type: a new device each, announced, none on standby, the
     * counters counting them, and the receiver's layout and the sync flag
     * as they were (`list0`, `eps0`, `syncing0`).
     */
    ghost predicate Building(manifest: seq<string>, i: nat, kinds: seq<Kind>, start: seq<string>,
                             hmds: nat, controllers: nat, trackers: nat, hand: nat,
                             list0: seq<string>, eps0: seq<int>, syncing0: bool)
      reads this
    {
      i <= FirstUnknown(manifest) && i <= |manifest| && kinds == KnownKinds(manifest[..i]) &&
      Progress(kinds, [], start) && standby == [] && Counters(kinds, hmds, controllers, trackers, hand) &&
      deviceList == list0 && eps == eps0 && syncing == syncing0
    }

    /** One more entry naming a type: the loop of AddManifest may go on past it. */
    static lemma ManifestStep(manifest: seq<string>, i: nat, kinds: seq<Kind>)
      requires i < |manifest| && KindOf(manifest[i]).Some?
      requires i <= FirstUnknown(manifest) && kinds == KnownKinds(manifest[..i])
      ensures i + 1 <= FirstUnknown(manifest)
      ensures kinds + [KindOf(manifest[i]).value] == KnownKinds(manifest[..i + 1])
    {
      KnownKindsStep(manifest, i);
    }

    /** Where AddManifest's loop stops: at the first entry naming no type, with every device valid. */
    lemma FinishManifest(manifest: seq<string>, i: nat, kinds: seq<Kind>, start: seq<string>,
                         hmds: nat, controllers: nat, trackers: nat, hand: nat,
                         list0: seq<string>, eps0: seq<int>, syncing0: bool)
      requires Building(manifest, i, kinds, start, hmds, controllers, trackers, hand, list0, eps0, syncing0)
      requires i == |manifest| || KindOf(manifest[i]).None?
      ensures i == FirstUnknown(manifest) && standby == [] && deviceList == list0 && eps == eps0 && syncing == syncing0
      ensures Progress(KnownKinds(manifest[..FirstUnknown(manifest)]), [], start) && DevicesValid()
      ensures |devices| <= FirstUnknown(manifest)
    {
      Settled(kinds, [], start);
    }

    /** Entry i of Init's layout, which names a type: a new device of that type, counted. */
    method AddEntry(manifest: seq<string>, i: nat, hmds: nat, controllers: nat, trackers: nat, hand: nat,
                    ghost kinds: seq<Kind>, ghost start: seq<string>,
                    ghost list0: seq<string>, ghost eps0: seq<int>, ghost syncing0: bool)
      returns (hmds': nat, controllers': nat, trackers': nat, hand': nat, ghost kinds': seq<Kind>)
      requires Building(manifest, i, kinds, start, hmds, controllers, trackers, hand, list0, eps0, syncing0)
      requires i < |manifest| && KindOf(manifest[i]).Some?
      modifies this
      ensures kinds' == kinds + [KindOf(manifest[i]).value]
      ensures Building(manifest, i + 1, kinds', start, hmds', controllers', trackers', hand', list0, eps0, syncing0)
    {
      var k := KindOf(manifest[i]).value;
      ManifestStep(manifest, i, kinds);
      var c := if k == Hmd then hmds else if k == Controller then controllers else trackers;
      CreateDevice(k, c, hand, kinds, [], start);
      hmds', controllers', trackers', hand' := Advance(k, kinds, hmds, controllers, trackers, hand);
      kinds' := kinds + [k];
    }

    /**
     * A tracking packet: accepted when its length is the expected message
     * size (the sum of the pose sizes) in floats plus the terminator and no
     * layout change is under way; device i then receives the i-th slice.
     */
    method OnPacket(len: int, view: seq<real>) returns (frames: Option<seq<seq<real>>>)
      requires Valid()
      requires |view| == if len < 0 then 0 else len / 4
      ensures frames.Some? <==> Sized(eps) && len == Sum(eps) * 4 + 3 && !syncing
      ensures frames.Some? ==> |frames.value| == |devices|
      ensures frames.Some? ==> Sized(eps) && forall i :: 0 <= i < |devices| ==>
        (Sum(eps[..i]) + eps[i] <= |view| && frames.value[i] == view[Sum(eps[..i])..Sum(eps[..i]) + eps[i]])
    {
      if Sized(eps) && len == Sum(eps) * 4 + 3 && !syncing {
        var sizes: seq<nat> := eps;
        var expected := Sum(sizes);
        var v := view[..expected];
        assert v == view;
        var tempPose := SplitPk(v, sizes);
        SplitPkFits(v, sizes);
        frames := Some(tempPose[..|devices|]);
      } else {
        frames := None;
      }
    }

    /**
     * UpdateServerDeviceList: power every active device off and set it
     * aside, then walk the stored layout, taking back the set-aside device
     * with each entry's serial or creating a new one, and empty the buffer.
     * Devices of earlier layouts that the new one does not name stay on
     * standby; entries naming no type are skipped.
     */
    method UpdateServerDeviceList()
      requires DevicesValid()
      modifies this, globals
      ensures var kinds := KnownKinds(Names(old(globals.uduChangeBuffer)));
        var pool := old(standby) + Off(old(devices));
        Placed(devices, kinds, pool) && StandbyFor(standby, pool, kinds) &&
        added == old(added) + NewSerials(pool, kinds)
      ensures DevicesValid()
      ensures globals.uduChangeBuffer == [] && globals.events == old(globals.events)
      ensures deviceList == old(deviceList) && eps == old(eps) && syncing == old(syncing)
    {
      SetAsideAll();
      PlaceLayout(Names(globals.uduChangeBuffer));
      globals.uduChangeBuffer := [];
    }

    /** The first loop of UpdateServerDeviceList: every active device powered off and appended to the standby list. */
    method SetAsideAll()
      requires DevicesValid()
      modifies this
      ensures devices == [] && standby == old(standby) + Off(old(devices))
      ensures UniqueKeys(standby) && HandsRight(standby) && forall n :: n in standby ==> !n.powered
      ensures added == old(added) && deviceList == old(deviceList) && eps == old(eps) && syncing == old(syncing)
    {
      PoolUnique(devices, standby);
      var i := 0;
      while i < |devices|
        invariant i <= |devices|
        invariant standby == old(standby) + Off(devices[..i])
        invariant devices == old(devices) && added == old(added)
        invariant deviceList == old(deviceList) && eps == old(eps) && syncing == old(syncing)
      {
        standby := standby + [devices[i].(powered := false)];
        i := i + 1;
      }
      assert devices[..i] == devices;
      devices := [];
      forall j | 0 <= j < |old(devices)|
        ensures Off(old(devices))[j].kind == Controller ==> Off(old(devices))[j].hand == Hand(Off(old(devices))[j].index)
      {
        assert old(devices)[j] in old(devices);
      }
    }

    /**
     * The second loop of UpdateServerDeviceList: for each entry naming a
     * type, the standby device with its serial powered on, or a new device.
     */
    method PlaceLayout(names: seq<string>)
      requires devices == [] && UniqueKeys(standby) && HandsRight(standby) && forall n :: n in standby ==> !n.powered
      modifies this
      ensures Progress(KnownKinds(names), old(standby), old(added)) && DevicesValid()
      ensures deviceList == old(deviceList) && eps == old(eps) && syncing == old(syncing)
    {
      ghost var pool := standby;
      ghost var start := added;
      assert Progress([], pool, start) by {
        assert StandbyFor(standby, pool, []);
      }
      var hmds: nat, controllers: nat, trackers: nat, hand: nat := 0, 0, 0, 1;
      ghost var kinds: seq<Kind> := [];
      var j := 0;
      while j < |names|
        invariant j <= |names|
        invariant kinds == KnownKinds(names[..j])
        invariant Progress(kinds, pool, start)
        invariant Counters(kinds, hmds, controllers, trackers, hand)
        invariant deviceList == old(deviceList) && eps == old(eps) && syncing == old(syncing)
      {
        KnownKindsStep(names, j);
        hmds, controllers, trackers, hand, kinds := PlaceName(names[j], hmds, controllers, trackers, hand, kinds, pool, start);
        j := j + 1;
      }
      assert names[..j] == names;
      Settled(kinds, pool, start);
    }

    /** One entry of the layout: placed when it names a type, skipped otherwise. */
    method PlaceName(name: string, hmds: nat, controllers: nat, trackers: nat, hand: nat,
                     ghost kinds: seq<Kind>, ghost pool: seq<Node>, ghost start: seq<string>)
      returns (hmds': nat, controllers': nat, trackers': nat, hand': nat, ghost kinds': seq<Kind>)
      requires Progress(kinds, pool, start) && UniqueKeys(pool)
      requires Counters(kinds, hmds, controllers, trackers, hand)
      modifies this
      ensures KindOf(name).Some? ==> kinds' == kinds + [KindOf(name).value]
      ensures KindOf(name).None? ==> kinds' == kinds
      ensures Progress(kinds', pool, start) && Counters(kinds', hmds', controllers', trackers', hand')
      ensures deviceList == old(deviceList) && eps == old(eps) && syncing == old(syncing)
    {
      hmds', controllers', trackers', hand', kinds' := hmds, controllers, trackers, hand, kinds;
      var entry := KindOf(name);
      if entry.Some? {
        var k := entry.value;
        var c := if k == Hmd then hmds else if k == Controller then controllers else trackers;
        PlaceEntry(k, c, hand, kinds, pool, start);
        hmds', controllers', trackers', hand' := Advance(k, kinds, hmds, controllers, trackers, hand);
        kinds' := kinds + [k];
      }
    }

    /**
     * The handling of a UduChange event: the stored layout becomes the
     * receiver's (UpdateParams), and the device list is rebuilt with
     * tracking packets held off meanwhile.
     */
    method OnUduChange()
      requires DevicesValid()
      modifies this, globals
      ensures var layout := old(globals.uduChangeBuffer);
        var pool := old(standby) + Off(old(devices));
        deviceList == Names(layout) && eps == Sizes(layout) &&
        Rebuilt(old(devices), old(standby), layout, devices, standby) &&
        added == old(added) + NewSerials(pool, KnownKinds(Names(layout)))
      ensures Valid() && !syncing
      ensures globals.uduChangeBuffer == [] && globals.events == old(globals.events)
    {
      var layout := globals.uduChangeBuffer;
      syncing := true;
      deviceList, eps := Names(layout), Sizes(layout);
      UpdateServerDeviceList();
      syncing := false;
    }

    /**
     * What the events of a frame leave after `changes` UduChange events,
     * from a start with `layout` stored, the active and standby devices
     * making up `pool`, and the receiver's layout, the announced serials
     * and the sync flag `list0`, `eps0`, `added0`, `syncing0`. Before the
     * first, nothing has changed. The first installs the stored layout and
     * rebuilds for it, leaving `d1` and `s1`; since that empties the buffer,
     * any later one installs the empty layout and sets every device aside.
     */
    ghost predicate Progressed(changes: nat, layout: seq<(string, int)>, pool: seq<Node>, d1: seq<Node>, s1: seq<Node>,
                               list0: seq<string>, eps0: seq<int>, added0: seq<string>, syncing0: bool)
      reads this, globals
    {
      (changes == 0 ==>
        devices == d1 && standby == s1 && pool == s1 + Off(d1) && deviceList == list0 && eps == eps0 &&
        added == added0 && syncing == syncing0 && globals.uduChangeBuffer == layout) &&
      (changes >= 1 ==>
        !syncing && globals.uduChangeBuffer == [] &&
        Placed(d1, KnownKinds(Names(layout)), pool) && StandbyFor(s1, pool, KnownKinds(Names(layout))) &&
        added == added0 + NewSerials(pool, KnownKinds(Names(layout)))) &&
      (changes == 1 ==> devices == d1 && standby == s1 && deviceList == Names(layout) && eps == Sizes(layout)) &&
      (changes >= 2 ==> devices == [] && deviceList == [] && eps == [] && StandbyFor(standby, s1 + Off(d1), []))
    }

    /**
     * RunFrame: deliver every pending host event; each UduChange event
     * rebuilds the device list from the stored layout (Progressed says
     * what the first and any later one leave). The ghost results are the
     * devices and standby list the first rebuild leaves.
     */
    method RunFrame() returns (ghost firstDevices: seq<Node>, ghost firstStandby: seq<Node>)
      requires Valid()
      modifies this, globals
      ensures Valid() && globals.events == []
      ensures Progressed(multiset(old(globals.events))[UduChangeEvent], old(globals.uduChangeBuffer),
        old(standby) + Off(old(devices)), firstDevices, firstStandby, old(deviceList), old(eps), old(added), old(syncing))
    {
      ghost var done := 0;
      ghost var layout, pool := globals.uduChangeBuffer, standby + Off(devices);
      ghost var list0, eps0, added0, syncing0 := deviceList, eps, added, syncing;
      firstDevices, firstStandby := devices, standby;
      while |globals.events| > 0
        invariant done <= |old(globals.events)| && globals.events == old(globals.events)[done..]
        invariant Valid()
        invariant Progressed(multiset(old(globals.events)[..done])[UduChangeEvent], layout, pool,
          firstDevices, firstStandby, list0, eps0, added0, syncing0)
        decreases |globals.events|
      {
        var event := globals.events[0];
        assert old(globals.events)[..done + 1] == old(globals.events)[..done] + [event];
        globals.events := globals.events[1..];
        firstDevices, firstStandby := Deliver(event, multiset(old(globals.events)[..done])[UduChangeEvent],
          layout, pool, firstDevices, firstStandby, list0, eps0, added0, syncing0);
        done := done + 1;
      }
      assert old(globals.events)[..done] == old(globals.events);
    }

    /** One event of RunFrame: a UduChange event counts as one more change. */
    method Deliver(event: nat, ghost changes: nat, ghost layout: seq<(string, int)>, ghost pool: seq<Node>,
                   ghost d1: seq<Node>, ghost s1: seq<Node>,
                   ghost list0: seq<string>, ghost eps0: seq<int>, ghost added0: seq<string>, ghost syncing0: bool)
      returns (ghost d1': seq<Node>, ghost s1': seq<Node>)
      requires Valid() && Progressed(changes, layout, pool, d1, s1, list0, eps0, added0, syncing0)
      modifies this, globals
      ensures Valid() && globals.events == old(globals.events)
      ensures Progressed(changes + if event == UduChangeEvent then 1 else 0, layout, pool, d1', s1', list0, eps0, added0, syncing0)
    {
      d1', s1' := d1, s1;
      if event == UduChangeEvent {
        d1', s1' := Change(changes, layout, pool, d1, s1, list0, eps0, added0, syncing0);
      }
    }

    /**
     * A UduChange event of a frame: the first rebuilds for the stored
     * layout, a later one for the empty layout the first one left.
     */
    method Change(ghost changes: nat, ghost layout: seq<(string, int)>, ghost pool: seq<Node>, ghost d1: seq<Node>, ghost s1: seq<Node>,
                  ghost list0: seq<string>, ghost eps0: seq<int>, ghost added0: seq<string>, ghost syncing0: bool)
      returns (ghost d1': seq<Node>, ghost s1': seq<Node>)
      requires Valid() && Progressed(changes, layout, pool, d1, s1, list0, eps0, added0, syncing0)
      modifies this, globals
      ensures Valid() && globals.events == old(globals.events)
      ensures Progressed(changes + 1, layout, pool, d1', s1', list0, eps0, added0, syncing0)
    {
      ghost var d, sb, a := devices, standby, added;
      OnUduChange();
      d1', s1' := d1, s1;
      if changes == 0 {
        d1', s1' := devices, standby;
      } else {
        EmptyRebuild(d, sb, devices, standby, a, added);
        if changes >= 2 {
          StandbyAgain(standby, sb, s1 + Off(d1));
        }
      }
    }
  }

  /**
   * A rebuild for the empty layout: no device stays active, the standby
   * list holds every device that was active or on standby, the receiver's
   * layout is empty and no device is announced.
   */
  lemma EmptyRebuild(d0: seq<Node>, s0: seq<Node>, d1: seq<Node>, s1: seq<Node>, a0: seq<string>, a1: seq<string>)
    requires Placed(d1, KnownKinds(Names([])), s0 + Off(d0)) && StandbyFor(s1, s0 + Off(d0), KnownKinds(Names([])))
    requires a1 == a0 + NewSerials(s0 + Off(d0), KnownKinds(Names([])))
    ensures d1 == [] && StandbyFor(s1, s0 + Off(d0), []) && a1 == a0
    ensures Names([]) == [] && Sizes([]) == []
  {
    assert KnownKinds(Names([])) == [];
  }

  /** Setting aside again on an empty layout keeps the standby list's devices. */
  lemma StandbyAgain(s2: seq<Node>, s1: seq<Node>, pool: seq<Node>)
    requires StandbyFor(s2, s1 + Off([]), []) && StandbyFor(s1, pool, [])
    ensures StandbyFor(s2, pool, [])
  {
    assert s1 + Off([]) == s1;
  }
}
