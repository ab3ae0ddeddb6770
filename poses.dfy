/**
 * The slotted pose records of bindings/python/virtualreality/templates/poses.py
 * (the same records appear in virtualreality/templates/templates.py): a Pose
 * of 13 named values and a ControllerState that extends it with 9 more.
 * Values are Python numbers, modelled as reals.
 */
module Poses {
  import opened Wrappers

  /** The slot names of the two records. */
  datatype Slot =
    | X | Y | Z | RW | RX | RY | RZ | VelX | VelY | VelZ | AngVelX | AngVelY | AngVelZ
    | Grip | System | Menu | TrackpadClick | TriggerValue | TrackpadX | TrackpadY | TrackpadTouch | TriggerClick

  /** The attribute name of a slot. */
  function Name(s: Slot): string
  {
    match s
    case X => "x" case Y => "y" case Z => "z"
    case RW => "r_w" case RX => "r_x" case RY => "r_y" case RZ => "r_z"
    case VelX => "vel_x" case VelY => "vel_y" case VelZ => "vel_z"
    case AngVelX => "ang_vel_x" case AngVelY => "ang_vel_y" case AngVelZ => "ang_vel_z"
    case Grip => "grip" case System => "system" case Menu => "menu"
    case TrackpadClick => "trackpad_click" case TriggerValue => "trigger_value"
    case TrackpadX => "trackpad_x" case TrackpadY => "trackpad_y"
    case TrackpadTouch => "trackpad_touch" case TriggerClick => "trigger_click"
  }

  /** No two slots share a name. */
  lemma NameInjective(a: Slot, b: Slot)
    requires Name(a) == Name(b)
    ensures a == b
  {
  }

  /** The position of a slot in __slots__ (the Pose slots come first). */
  function Ordinal(s: Slot): nat
  {
    match s
    case X => 0 case Y => 1 case Z => 2 case RW => 3 case RX => 4 case RY => 5 case RZ => 6
    case VelX => 7 case VelY => 8 case VelZ => 9 case AngVelX => 10 case AngVelY => 11 case AngVelZ => 12
    case Grip => 13 case System => 14 case Menu => 15 case TrackpadClick => 16 case TriggerValue => 17
    case TrackpadX => 18 case TrackpadY => 19 case TrackpadTouch => 20 case TriggerClick => 21
  }

  const PoseSlots: seq<Slot> := [X, Y, Z, RW, RX, RY, RZ, VelX, VelY, VelZ, AngVelX, AngVelY, AngVelZ]

  const ControllerSlots: seq<Slot> := [
    X, Y, Z, RW, RX, RY, RZ, VelX, VelY, VelZ, AngVelX, AngVelY, AngVelZ,
    Grip, System, Menu, TrackpadClick, TriggerValue, TrackpadX, TrackpadY, TrackpadTouch, TriggerClick
  ]

  /** A Pose, or a ControllerState (which is a Pose with the controller inputs after it). */
  datatype Pose =
    | Pose(x: real, y: real, z: real, rW: real, rX: real, rY: real, rZ: real,
           velX: real, velY: real, velZ: real, angVelX: real, angVelY: real, angVelZ: real)
    | ControllerState(x: real, y: real, z: real, rW: real, rX: real, rY: real, rZ: real,
                      velX: real, velY: real, velZ: real, angVelX: real, angVelY: real, angVelZ: real,
                      grip: real, system: real, menu: real, trackpadClick: real, triggerValue: real,
                      trackpadX: real, trackpadY: real, trackpadTouch: real, triggerClick: real)

  /** A value handed to item assignment: a number, or anything else. */
  datatype PyValue = Number(n: real) | NonNumber

  /** The exceptions item access raises. */
  datatype PyError = KeyError(key: string) | AssertionError | NameError(name: string)

  /** __slots__ of the record's class. */
  function Slots(p: Pose): seq<Slot>
  {
    if p.Pose? then PoseSlots else ControllerSlots
  }

  /** __slots__ as the names Python sees. */
  function SlotNames(p: Pose): (names: seq<string>)
    ensures |names| == |Slots(p)| && forall i :: 0 <= i < |names| ==> names[i] == Name(Slots(p)[i])
  {
    seq(|Slots(p)|, i requires 0 <= i < |Slots(p)| => Name(Slots(p)[i]))
  }

  /** __len__: 13 for a Pose, 22 for a ControllerState, one per slot and per listed value. */
  function Len(p: Pose): (n: nat)
    ensures n == |Slots(p)| == |GetVals(p)|
    ensures p.Pose? ==> n == 13
    ensures p.ControllerState? ==> n == 22
  {
    if p.Pose? then 13 else 22
  }

  /** get_vals: the values written out field by field. */
  function GetVals(p: Pose): seq<real>
  {
    var pose := [p.x, p.y, p.z, p.rW, p.rX, p.rY, p.rZ, p.velX, p.velY, p.velZ, p.angVelX, p.angVelY, p.angVelZ];
    match p
    case Pose(_, _, _, _, _, _, _, _, _, _, _, _, _) => pose
    case ControllerState(_, _, _, _, _, _, _, _, _, _, _, _, _, grip, system, menu, tc, tv, tx, ty, tt, tk) =>
      pose + [grip, system, menu, tc, tv, tx, ty, tt, tk]
  }

  /** getattr: the attribute a slot names, if the record has it (a Pose has no controller inputs). */
  function GetAttr(p: Pose, s: Slot): Option<real>
  {
    match s
    case X => Some(p.x) case Y => Some(p.y) case Z => Some(p.z)
    case RW => Some(p.rW) case RX => Some(p.rX) case RY => Some(p.rY) case RZ => Some(p.rZ)
    case VelX => Some(p.velX) case VelY => Some(p.velY) case VelZ => Some(p.velZ)
    case AngVelX => Some(p.angVelX) case AngVelY => Some(p.angVelY) case AngVelZ => Some(p.angVelZ)
    case Grip => if p.Pose? then None else Some(p.grip)
    case System => if p.Pose? then None else Some(p.system)
    case Menu => if p.Pose? then None else Some(p.menu)
    case TrackpadClick => if p.Pose? then None else Some(p.trackpadClick)
    case TriggerValue => if p.Pose? then None else Some(p.triggerValue)
    case TrackpadX => if p.Pose? then None else Some(p.trackpadX)
    case TrackpadY => if p.Pose? then None else Some(p.trackpadY)
    case TrackpadTouch => if p.Pose? then None else Some(p.trackpadTouch)
    case TriggerClick => if p.Pose? then None else Some(p.triggerClick)
  }

  /** Whether the record has the slot: a Pose has the first 13, a ControllerState all 22. */
  predicate HasSlot(p: Pose, s: Slot)
  {
    Ordinal(s) < |Slots(p)|
  }

  /** Each slot of a record sits at its ordinal: no slot is listed twice. */
  lemma SlotsInOrder(p: Pose)
    ensures forall i :: 0 <= i < |Slots(p)| ==> Ordinal(Slots(p)[i]) == i
  {
  }

  /** A record lists a slot iff the slot's ordinal is within its length, and then it has that attribute. */
  lemma SlotMembership(p: Pose, s: Slot)
    ensures s in Slots(p) <==> HasSlot(p, s)
    ensures HasSlot(p, s) <==> GetAttr(p, s).Some?
    ensures HasSlot(p, s) ==> Slots(p)[Ordinal(s)] == s
  {
    SlotsInOrder(p);
    if Ordinal(s) < |Slots(p)| {
      assert Slots(p)[Ordinal(s)] == s;
    }
  }

  /** get_vals puts each attribute at its slot's position. */
  lemma ValueAtOrdinal(p: Pose, s: Slot)
    requires Ordinal(s) < |Slots(p)|
    ensures GetVals(p)[Ordinal(s)] == GetAttr(p, s).value
  {
  }

  /**
   * get_slot_values: the attribute of each slot in turn, which is the
   * field-by-field list of get_vals.
   */
  function GetSlotValues(p: Pose): (vals: seq<real>)
    ensures vals == GetVals(p)
  {
    SlotsInOrder(p);
    forall i | 0 <= i < |Slots(p)|
      ensures GetAttr(p, Slots(p)[i]).Some? && GetAttr(p, Slots(p)[i]).value == GetVals(p)[i]
    {
      SlotMembership(p, Slots(p)[i]);
      ValueAtOrdinal(p, Slots(p)[i]);
    }
    seq(|Slots(p)|, i requires 0 <= i < |Slots(p)| => GetAttr(p, Slots(p)[i]).value)
  }

  /** The slot of the record whose name is `key`, if any. */
  function Lookup(slots: seq<Slot>, key: string): (r: Option<nat>)
    ensures r.None? <==> forall i :: 0 <= i < |slots| ==> Name(slots[i]) != key
    ensures r.Some? ==> r.value < |slots| && Name(slots[r.value]) == key
  {
    if |slots| == 0 then None
    else if Name(slots[0]) == key then Some(0)
    else match Lookup(slots[1..], key)
      case None => None
      case Some(i) => Some(i + 1)
  }

  /** The slot Lookup finds is the only one of the record with that name. */
  lemma LookupIsTheSlot(p: Pose, key: string, i: nat)
    requires i < |Slots(p)| && Name(Slots(p)[i]) == key
    ensures forall s :: HasSlot(p, s) && Name(s) == key ==> s == Slots(p)[i]
    ensures HasSlot(p, Slots(p)[i]) && GetAttr(p, Slots(p)[i]).Some?
  {
    forall s | Name(s) == key
      ensures s == Slots(p)[i]
    {
      NameInjective(s, Slots(p)[i]);
    }
    SlotMembership(p, Slots(p)[i]);
  }

  /** __getitem__: the value of the slot named `key`, KeyError for any other key. */
  function GetItem(p: Pose, key: string): (r: Result<real, PyError>)
    ensures r.Err? <==> forall s :: HasSlot(p, s) ==> Name(s) != key
    ensures r.Err? ==> r.error == KeyError(key)
    ensures forall s :: HasSlot(p, s) && Name(s) == key ==> r.Ok? && GetAttr(p, s) == Some(r.value)
  {
    match Lookup(Slots(p), key)
    case None =>
      KeyMissing(p, key);
      Err(KeyError(key))
    case Some(i) =>
      KeyFound(p, key, i);
      Ok(GetAttr(p, Slots(p)[i]).value)
  }

  /** r is what item access with `key` gives on the record. */
  ghost predicate IsItem(p: Pose, key: string, r: Result<real, PyError>)
  {
    && (r.Err? <==> forall s :: HasSlot(p, s) ==> Name(s) != key)
    && (r.Err? ==> r.error == KeyError(key))
    && (forall s :: HasSlot(p, s) && Name(s) == key ==> r.Ok? && GetAttr(p, s) == Some(r.value))
  }

  /** A key no slot of the record is named gives a KeyError. */
  lemma KeyMissing(p: Pose, key: string)
    requires forall i :: 0 <= i < |Slots(p)| ==> Name(Slots(p)[i]) != key
    ensures IsItem(p, key, Err(KeyError(key)))
  {
    forall s | HasSlot(p, s)
      ensures Name(s) != key
    {
      SlotMembership(p, s);
    }
  }

  /** The slot Lookup finds gives its attribute. */
  lemma KeyFound(p: Pose, key: string, i: nat)
    requires i < |Slots(p)| && Name(Slots(p)[i]) == key
    ensures GetAttr(p, Slots(p)[i]).Some?
    ensures IsItem(p, key, Ok(GetAttr(p, Slots(p)[i]).value))
  {
    LookupIsTheSlot(p, key, i);
  }

  /** Pose(pose, velocity): position and quaternion from `pose`, linear then angular velocity from `velocity`. */
  function NewPose(pose: seq<real>, velocity: seq<real>): (p: Pose)
    requires |pose| >= 7 && |velocity| >= 6
    ensures p.Pose? && GetVals(p) == pose[..7] + velocity[..6]
  {
    Pose(pose[0], pose[1], pose[2], pose[3], pose[4], pose[5], pose[6],
         velocity[0], velocity[1], velocity[2], velocity[3], velocity[4], velocity[5])
  }

  const DefaultPosition: seq<real> := [0.0, 0.0, 0.0, 1.0, 0.0, 0.0, 0.0]
  const DefaultVelocity: seq<real> := [0.0, 0.0, 0.0, 0.0, 0.0, 0.0]

  /** ControllerState(pose, velocity, grip, ..., trigger_click), the nine inputs given in slot order. */
  function NewControllerState(pose: seq<real>, velocity: seq<real>, inputs: seq<real>): (c: Pose)
    requires |pose| >= 7 && |velocity| >= 6 && |inputs| == 9
    ensures c.ControllerState? && GetVals(c) == pose[..7] + velocity[..6] + inputs
  {
    ControllerState(pose[0], pose[1], pose[2], pose[3], pose[4], pose[5], pose[6],
                    velocity[0], velocity[1], velocity[2], velocity[3], velocity[4], velocity[5],
                    inputs[0], inputs[1], inputs[2], inputs[3], inputs[4], inputs[5], inputs[6], inputs[7], inputs[8])
  }

  /** A default Pose sits at the origin, unrotated (r_w = 1), at rest: every slot but r_w reads 0. */
  lemma DefaultPoseIsIdentity()
    ensures var p := NewPose(DefaultPosition, DefaultVelocity);
      forall i :: 0 <= i < |Slots(p)| ==> GetVals(p)[i] == if Slots(p)[i] == RW then 1.0 else 0.0
  {
  }

  /**
   * A ControllerState is a Pose with more after it: its first 13 slots are
   * the Pose slots, and its first 13 values are the Pose built from the
   * same position and velocity.
   */
  lemma ControllerExtendsPose(pose: seq<real>, velocity: seq<real>, inputs: seq<real>)
    requires |pose| >= 7 && |velocity| >= 6 && |inputs| == 9
    ensures ControllerSlots[..|PoseSlots|] == PoseSlots
    ensures GetVals(NewControllerState(pose, velocity, inputs))[..13] == GetVals(NewPose(pose, velocity))
  {
  }

  /**
   * __setitem__ as written in the bindings copy: its first statement checks
   * the value against numbers.Number, but that file never imports the
   * numbers module, so every assignment raises NameError.
   */
  function SetItemAsWritten(p: Pose, key: string, val: PyValue): (r: Result<Pose, PyError>)
    ensures r.Err?
  {
    Err(NameError("numbers"))
  }

  /** With the missing import not even a number for a listed slot is stored, though reading that slot works. */
  lemma SetItemAlwaysFails(p: Pose)
    ensures GetItem(p, "x").Ok?
    ensures SetItemAsWritten(p, "x", Number(1.0)) == Err(NameError("numbers"))
  {
    assert Name(Slots(p)[0]) == "x";
  }

  /** setattr: the record with the slot `s` (one of its own) holding `v`. */
  function SetAttr(p: Pose, s: Slot, v: real): (q: Pose)
    requires HasSlot(p, s)
    ensures Slots(q) == Slots(p)
    ensures GetAttr(q, s) == Some(v)
    ensures forall t :: t != s ==> GetAttr(q, t) == GetAttr(p, t)
  {
    match s
    case X => p.(x := v) case Y => p.(y := v) case Z => p.(z := v)
    case RW => p.(rW := v) case RX => p.(rX := v) case RY => p.(rY := v) case RZ => p.(rZ := v)
    case VelX => p.(velX := v) case VelY => p.(velY := v) case VelZ => p.(velZ := v)
    case AngVelX => p.(angVelX := v) case AngVelY => p.(angVelY := v) case AngVelZ => p.(angVelZ := v)
    case Grip => p.(grip := v) case System => p.(system := v) case Menu => p.(menu := v)
    case TrackpadClick => p.(trackpadClick := v) case TriggerValue => p.(triggerValue := v)
    case TrackpadX => p.(trackpadX := v) case TrackpadY => p.(trackpadY := v)
    case TrackpadTouch => p.(trackpadTouch := v) case TriggerClick => p.(triggerClick := v)
  }

  /**
   * __setitem__: a non-numeric value fails the assertion, a key outside the
   * slots raises KeyError; otherwise the slot named `key` takes the value
   * and every other slot keeps its own.
   */
  function SetItem(p: Pose, key: string, val: PyValue): (r: Result<Pose, PyError>)
    ensures val.NonNumber? <==> r == Err(AssertionError)
    ensures val.Number? && (forall s :: HasSlot(p, s) ==> Name(s) != key) <==> r == Err(KeyError(key))
    ensures r.Ok? ==> Slots(r.value) == Slots(p)
    ensures r.Ok? ==> forall s :: HasSlot(p, s) ==>
      GetAttr(r.value, s) == if Name(s) == key then Some(val.n) else GetAttr(p, s)
  {
    if val.NonNumber? then Err(AssertionError)
    else match Lookup(Slots(p), key)
      case None =>
        forall s | HasSlot(p, s)
          ensures Name(s) != key
        {
          SlotMembership(p, s);
        }
        Err(KeyError(key))
      case Some(k) =>
        LookupIsTheSlot(p, key, k);
        Ok(SetAttr(p, Slots(p)[k], val.n))
  }

  /** Reading back a slot just assigned gives the assigned number. */
  lemma SetThenGet(p: Pose, s: Slot, v: real)
    requires HasSlot(p, s)
    ensures SetItem(p, Name(s), Number(v)).Ok?
    ensures GetItem(SetItem(p, Name(s), Number(v)).value, Name(s)) == Ok(v)
  {
  }
}
