/**
 * The "unlimited devices" poser of
 * bindings/python/virtualreality/templates/udu_templates.py. A udu string
 * such as "h c c" lists the tracked devices: h a headset and t a tracker,
 * each reported as a 13-value Pose, and c a controller, reported as a
 * 22-value ControllerState. The poser keeps one record per device, tells
 * the driver's settings manager about a new layout in a fixed-size packet of
 * 32-bit words, and streams every record's values as packed floats.
 * Bytes are characters holding the byte values, as in TemplateBase; how a
 * float is packed is a parameter.
 */
module UduTemplate {
  import opened Wrappers
  import opened Poses
  import opened TemplateBase
  import Framing

  /** The settings-manager message type that announces a new layout. */
  const UduMessageType: nat := 20
  /** The settings-manager message: type, device count and 128 payload words. */
  const PayloadWords: nat := 128

  predicate IsType(c: char)
  {
    c == 'h' || c == 'c' || c == 't'
  }

  /**
   * The string matches ([htc][ ])*([htc]$) in full: type letters at the
   * even positions, single spaces between them, nothing else, not empty.
   */
  predicate ValidUdu(s: string)
  {
    |s| % 2 == 1 &&
    (forall i :: 0 <= i < |s| && i % 2 == 0 ==> IsType(s[i])) &&
    (forall i :: 0 <= i < |s| && i % 2 == 1 ==> s[i] == ' ')
  }

  /** split(" ") of a valid udu string: its type letters, one per device, in order. */
  function DeviceTypes(s: string): (r: seq<char>)
    requires ValidUdu(s)
    ensures |r| == (|s| + 1) / 2 && |r| > 0
    ensures forall i :: 0 <= i < |r| ==> r[i] == s[2 * i] && IsType(r[i])
  {
    seq((|s| + 1) / 2, i requires 0 <= i < (|s| + 1) / 2 => s[2 * i])
  }

  /** The record a fresh device of a type starts with: Pose() for h and t, ControllerState() for c. */
  function DefaultRecord(t: char): (p: Pose)
    ensures p.ControllerState? <==> t == 'c'
    ensures Len(p) == if t == 'c' then 22 else 13
  {
    if t == 'c' then NewControllerState(DefaultPosition, DefaultVelocity, [0.0, 0.0, 0.0, 0.0, 0.0, 0.0, 0.0, 0.0, 0.0])
    else NewPose(DefaultPosition, DefaultVelocity)
  }

  /** One default record per device type, in order. */
  predicate DefaultRecords(types: seq<char>, poses: seq<Pose>)
  {
    |poses| == |types| && forall i :: 0 <= i < |types| ==> poses[i] == DefaultRecord(types[i])
  }

  /** The (type code, value count) pair the layout packet gives a device type. */
  function TypeCode(t: char): (r: (nat, nat))
    requires IsType(t)
    ensures r.0 < 3 && r.1 == Len(DefaultRecord(t))
  {
    if t == 'h' then (0, 13) else if t == 'c' then (1, 22) else (2, 13)
  }

  /** The flattened (type, size) pairs of the devices. */
  function Pairs(types: seq<char>): (r: seq<nat>)
    requires forall i :: 0 <= i < |types| ==> IsType(types[i])
    ensures |r| == 2 * |types|
    ensures forall i :: 0 <= i < |types| ==> r[2 * i] == TypeCode(types[i]).0 && r[2 * i + 1] == TypeCode(types[i]).1
  {
    if |types| == 0 then []
    else
      var rest := Pairs(types[1..]);
      PairsCons(types, rest);
      [TypeCode(types[0]).0, TypeCode(types[0]).1] + rest
  }

  /** Putting a device's pair in front of the pairs of the devices after it gives the pairs of all of them. */
  lemma PairsCons(types: seq<char>, rest: seq<nat>)
    requires |types| > 0 && forall i :: 0 <= i < |types| ==> IsType(types[i])
    requires |rest| == 2 * (|types| - 1)
    requires forall i :: 0 <= i < |types| - 1 ==> rest[2 * i] == TypeCode(types[i + 1]).0 && rest[2 * i + 1] == TypeCode(types[i + 1]).1
    ensures var r := [TypeCode(types[0]).0, TypeCode(types[0]).1] + rest;
      forall i :: 0 <= i < |types| ==> r[2 * i] == TypeCode(types[i]).0 && r[2 * i + 1] == TypeCode(types[i]).1
  {
    var r := [TypeCode(types[0]).0, TypeCode(types[0]).1] + rest;
    forall i | 1 <= i < |types|
      ensures r[2 * i] == TypeCode(types[i]).0 && r[2 * i + 1] == TypeCode(types[i]).1
    {
      var j := i - 1;
      assert r[2 * i] == rest[2 * j] && r[2 * i + 1] == rest[2 * j + 1];
    }
  }

  /** The zero words that pad the pairs to the payload size. */
  function Zeros(n: nat): (r: seq<nat>)
    ensures |r| == n && forall i :: 0 <= i < n ==> r[i] == 0
  {
    seq(n, _ => 0)
  }

  /**
   * The settings-manager packet of _sync_udu: message type 20, the device
   * count, then each device's (type, size) pair, zero-padded to 128 words;
   * with more than 64 devices the padding length is negative and building
   * it fails.
   */
  function UduPacket(types: seq<char>): (r: Option<seq<nat>>)
    requires forall i :: 0 <= i < |types| ==> IsType(types[i])
    ensures r.Some? <==> |types| <= PayloadWords / 2
    ensures r.Some? ==> |r.value| == PayloadWords + 2 && r.value[0] == UduMessageType && r.value[1] == |types|
    ensures r.Some? ==> forall i :: 0 <= i < |types| ==>
      r.value[2 + 2 * i] == TypeCode(types[i]).0 && r.value[3 + 2 * i] == TypeCode(types[i]).1
    ensures r.Some? ==> forall i :: 2 + 2 * |types| <= i < PayloadWords + 2 ==> r.value[i] == 0
  {
    if 2 * |types| > PayloadWords then None
    else
      var head, pairs, zeros := [UduMessageType, |types|], Pairs(types), Zeros(PayloadWords - 2 * |types|);
      ThreePartIndex(head, pairs, zeros);
      Some(head + pairs + zeros)
  }

  /** Where the words of three sequences put one after another land. */
  lemma ThreePartIndex<T>(a: seq<T>, b: seq<T>, c: seq<T>)
    ensures |a + b + c| == |a| + |b| + |c|
    ensures forall i :: 0 <= i < |a| ==> (a + b + c)[i] == a[i]
    ensures forall i :: |a| <= i < |a| + |b| ==> (a + b + c)[i] == b[i - |a|]
    ensures forall i :: |a| + |b| <= i < |a| + |b| + |c| ==> (a + b + c)[i] == c[i - |a| - |b|]
  {
  }

  /** struct.pack of one 'f': every value becomes four bytes. */
  ghost predicate FloatPacker(pack: real -> string)
  {
    forall v :: |pack(v)| == 4
  }

  /** Every value of a record packed as floats, in slot order. */
  function PackRecord(pack: real -> string, vals: seq<real>): string
  {
    if |vals| == 0 then [] else pack(vals[0]) + PackRecord(pack, vals[1..])
  }

  /** The packed records of all devices, one after another. */
  function PackAll(pack: real -> string, poses: seq<Pose>): string
  {
    if |poses| == 0 then [] else PackRecord(pack, GetVals(poses[0])) + PackAll(pack, poses[1..])
  }

  /** How many values all records hold together. */
  function TotalLen(poses: seq<Pose>): nat
  {
    if |poses| == 0 then 0 else Len(poses[0]) + TotalLen(poses[1..])
  }

  /** The message send writes: all records packed, then the terminator. */
  function UduMessage(pack: real -> string, poses: seq<Pose>, terminator: string): (r: string)
    ensures |r| >= |terminator| && r[|r| - |terminator|..] == terminator
  {
    var body := PackAll(pack, poses);
    assert (body + terminator)[|body|..] == terminator;
    body + terminator
  }

  /** A record packs into four bytes per value. */
  lemma {:induction false} PackRecordLength(pack: real -> string, vals: seq<real>)
    requires FloatPacker(pack)
    ensures |PackRecord(pack, vals)| == 4 * |vals|
    decreases |vals|
  {
    if |vals| > 0 {
      var v := vals[0];
      assert |pack(v)| == 4;
      PackRecordLength(pack, vals[1..]);
    }
  }

  /** All records pack into four bytes per value of the layout. */
  lemma {:induction false} PackAllLength(pack: real -> string, poses: seq<Pose>)
    requires FloatPacker(pack)
    ensures |PackAll(pack, poses)| == 4 * TotalLen(poses)
    decreases |poses|
  {
    if |poses| > 0 {
      PackRecordLength(pack, GetVals(poses[0]));
      PackAllLength(pack, poses[1..]);
    }
  }

  /** The message is four bytes per value, plus the terminator. */
  lemma MessageLength(pack: real -> string, poses: seq<Pose>, terminator: string)
    requires FloatPacker(pack)
    ensures |UduMessage(pack, poses, terminator)| == 4 * TotalLen(poses) + |terminator|
  {
    PackAllLength(pack, poses);
  }

  /** What _sync_udu did. */
  datatype SyncOutcome =
    | InvalidUdu                 // the string is not a udu string; nothing changes
    | Announced(packet: seq<nat>) // the records were reset and this packet goes to the settings manager
    | TooManyDevices             // the records were reset, but the padding could not be built

  class UduPoserTemplate {
    /** The PoserTemplateBase part: triggers, coro_list, last_read and what was written. */
    const base: PoserTemplateBase
    /** The _terminator appended to every pose message. */
    const terminator: string
    /** device_types: the type letter of each device of the layout given at construction. */
    var deviceTypes: seq<char>
    /** poses: one record per device. */
    var poses: seq<Pose>

    predicate Valid()
      reads this, base
    {
      base.Valid()
    }

    /**
     * __init__ for a valid udu string: the base part, the device types and
     * one default record per device. An invalid string raises
     * RuntimeError before any of this; Create models that case.
     */
    constructor(udu: string, methodNames: seq<string>, sendDelay: real, recvDelay: real, isClient: bool, term: string)
      requires ValidUdu(udu)
      ensures Valid() && fresh(base) && terminator == term
      ensures base.coroList == CoroList(methodNames, BaseExceptions)
      ensures base.keepAlive == map["close" := KeepAlive(true, 0.1), "send" := KeepAlive(true, sendDelay), "recv" := KeepAlive(true, recvDelay)]
      ensures base.sent == [] && base.lastRead == []
      ensures deviceTypes == DeviceTypes(udu)
      ensures DefaultRecords(deviceTypes, poses)
    {
      base := new PoserTemplateBase(methodNames, sendDelay, recvDelay, isClient);
      terminator := term;
      var types := DeviceTypes(udu);
      deviceTypes := types;
      var built := BuildRecords(types);
      poses := built;
    }

    /**
     * _sync_udu: an invalid string changes nothing; a valid one replaces
     * the records with defaults for the new layout (device_types keeps the
     * old layout) and yields the settings-manager packet, whose padding
     * cannot be built for more than 64 devices.
     */
    method SyncUdu(udu: string) returns (r: SyncOutcome)
      requires Valid()
      modifies this
      ensures Valid() && deviceTypes == old(deviceTypes)
      ensures r.InvalidUdu? <==> !ValidUdu(udu)
      ensures r.InvalidUdu? ==> poses == old(poses)
      ensures !r.InvalidUdu? ==> DefaultRecords(DeviceTypes(udu), poses)
      ensures r.TooManyDevices? <==> ValidUdu(udu) && UduPacket(DeviceTypes(udu)).None?
      ensures r.Announced? ==> UduPacket(DeviceTypes(udu)) == Some(r.packet)
    {
      if !ValidUdu(udu) {
        return InvalidUdu;
      }
      var types := DeviceTypes(udu);
      poses := BuildRecords(types);
      var packet := UduPacket(types);
      if packet.None? {
        return TooManyDevices;
      }
      return Announced(packet.value);
    }

    /**
     * send: while the send trigger is alive, write every record packed
     * as floats followed by the terminator; a failed write ends the loop.
     * `writes` says which writes succeed; running out of them stands for
     * close stopping the trigger. Whichever way the loop ends, the trigger
     * is then set to stop.
     */
    method Send(pack: real -> string, writes: seq<bool>) returns (used: nat)
      requires Valid()
      modifies base
      ensures Valid() && used <= |writes|
      ensures base.keepAlive == old(base.keepAlive)["send" := old(base.keepAlive)["send"].(isAlive := false)]
      ensures base.lastRead == old(base.lastRead) && base.coroList == old(base.coroList)
      ensures base.coroExceptions == old(base.coroExceptions)
      ensures |old(base.sent)| <= |base.sent| && base.sent[..|old(base.sent)|] == old(base.sent)
      ensures forall i :: |old(base.sent)| <= i < |base.sent| ==> base.sent[i] == UduMessage(pack, poses, terminator)
      ensures !old(base.keepAlive)["send"].isAlive ==> used == 0 && |base.sent| == |old(base.sent)|
      ensures old(base.keepAlive)["send"].isAlive && used > 0 && !writes[used - 1] ==>
        |base.sent| == |old(base.sent)| + used - 1
      ensures old(base.keepAlive)["send"].isAlive && (used == 0 || writes[used - 1]) ==>
        used == |writes| && |base.sent| == |old(base.sent)| + used
    {
      used := 0;
      if base.keepAlive["send"].isAlive {
        var msg := UduMessage(pack, poses, terminator);
        while used < |writes|
          invariant used <= |writes| && Valid() && base.keepAlive == old(base.keepAlive)
          invariant base.lastRead == old(base.lastRead) && base.coroList == old(base.coroList)
          invariant base.coroExceptions == old(base.coroExceptions)
          invariant |base.sent| == |old(base.sent)| + used && base.sent[..|old(base.sent)|] == old(base.sent)
          invariant forall i :: |old(base.sent)| <= i < |base.sent| ==> base.sent[i] == msg
          invariant used > 0 ==> writes[used - 1]
          decreases |writes| - used
        {
          if !writes[used] {
            used := used + 1;
            break;
          }
          Framing.PrefixOfAppend(base.sent, msg);
          base.sent := base.sent + [msg];
          used := used + 1;
        }
      }
      base.keepAlive := base.keepAlive["send" := base.keepAlive["send"].(isAlive := false)];
    }
  }

  /** The loop that appends a fresh record per device type, in order. */
  method BuildRecords(types: seq<char>) returns (built: seq<Pose>)
    ensures DefaultRecords(types, built)
  {
    built := [];
    var i := 0;
    while i < |types|
      invariant 0 <= i <= |types| && DefaultRecords(types[..i], built)
    {
      built := built + [DefaultRecord(types[i])];
      i := i + 1;
    }
    assert types[..i] == types;
  }

  /**
   * UduPoserTemplate(udu_string, ...): RuntimeError (None here) unless the
   * whole string is a udu string; otherwise a poser with one default
   * record per listed device.
   */
  method Create(udu: string, methodNames: seq<string>, sendDelay: real, recvDelay: real, isClient: bool, term: string)
    returns (r: Option<UduPoserTemplate>)
    ensures r.Some? <==> ValidUdu(udu)
    ensures r.Some? ==> fresh(r.value) && r.value.Valid() && r.value.deviceTypes == DeviceTypes(udu)
    ensures r.Some? ==> DefaultRecords(r.value.deviceTypes, r.value.poses)
  {
    if !ValidUdu(udu) {
      return None;
    }
    var p := new UduPoserTemplate(udu, methodNames, sendDelay, recvDelay, isClient, term);
    return Some(p);
  }

  /** "h c c": a headset and two controllers, 13 + 22 + 22 values, announced as (0,13) (1,22) (1,22). */
  lemma HeadsetAndTwoControllers()
    ensures ValidUdu("h c c") && DeviceTypes("h c c") == ['h', 'c', 'c']
    ensures UduPacket(DeviceTypes("h c c")).Some?
    ensures UduPacket(DeviceTypes("h c c")).value[..8] == [20, 3, 0, 13, 1, 22, 1, 22]
  {
    var t := DeviceTypes("h c c");
    assert t == ['h', 'c', 'c'];
    var p := UduPacket(t).value;
    assert p[..8] == [p[0], p[1], p[2], p[3], p[4], p[5], p[6], p[7]];
  }
}
