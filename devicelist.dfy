/**
 * The device bookkeeping of the SteamVR driver (driver/src/driver_hobovr.cpp):
 * which devices a layout asks for, how they are named, and which of the
 * devices the driver already owns a new layout takes back. A device is
 * named by its type letter and a per-type counter ("h0", "c0", "c1", "t0");
 * the driver looks devices up by that serial string.
 */
module DeviceList {
  import opened Wrappers
  import opened Numbers

  /** The three device types a layout can list. */
  datatype Kind = Hmd | Controller | Tracker

  /** The layout letter of a type. */
  function Letter(k: Kind): (s: string)
    ensures |s| == 1
  {
    match k
    case Hmd => "h"
    case Controller => "c"
    case Tracker => "t"
  }

  /** The type a layout entry names; any other entry names none. */
  function KindOf(name: string): (r: Option<Kind>)
    ensures r.Some? <==> name == "h" || name == "c" || name == "t"
    ensures r.Some? ==> Letter(r.value) == name
  {
    if name == "h" then Some(Hmd)
    else if name == "c" then Some(Controller)
    else if name == "t" then Some(Tracker)
    else None
  }

  /** The serial of the n-th device of a type: its letter followed by std::to_string(n). */
  function SerialOf(k: Kind, n: nat): string
  {
    Letter(k) + NatToString(n)
  }

  /** Two serials are the same string exactly when they name the same type and counter. */
  lemma SerialInjective(k1: Kind, n1: nat, k2: Kind, n2: nat)
    ensures SerialOf(k1, n1) == SerialOf(k2, n2) <==> k1 == k2 && n1 == n2
  {
    if SerialOf(k1, n1) == SerialOf(k2, n2) {
      assert SerialOf(k1, n1)[0] == SerialOf(k2, n2)[0];
      assert k1 == k2;
      assert SerialOf(k1, n1)[1..] == NatToString(n1);
      assert SerialOf(k2, n2)[1..] == NatToString(n2);
      NatToStringValue(n1);
      NatToStringValue(n2);
    }
  }

  /**
   * A device the driver owns: its type, its counter (together they give
   * the serial), the hand a controller was created for (controller_hs, 0
   * for the other types), and whether it is powered on (a valid pose and a
   * connected device).
   */
  datatype Node = Node(kind: Kind, index: nat, hand: nat, powered: bool)

  function Serial(n: Node): string
  {
    SerialOf(n.kind, n.index)
  }

  /** What identifies a device: its type and counter, the parts of its serial. */
  function KeyOf(n: Node): (Kind, nat)
  {
    (n.kind, n.index)
  }

  /** No two devices share a serial. */
  predicate UniqueKeys(s: seq<Node>)
  {
    forall i, j :: 0 <= i < j < |s| ==> KeyOf(s[i]) != KeyOf(s[j])
  }

  /** The types the entries of a layout name, in order; other entries are skipped. */
  function KnownKinds(names: seq<string>): (r: seq<Kind>)
    ensures |r| <= |names|
  {
    if |names| == 0 then []
    else
      var rest := KnownKinds(names[..|names| - 1]);
      match KindOf(names[|names| - 1])
      case Some(k) => rest + [k]
      case None => rest
  }

  /** How many devices of type k a layout lists. */
  function Count(kinds: seq<Kind>, k: Kind): nat
  {
    if |kinds| == 0 then 0
    else Count(kinds[..|kinds| - 1], k) + if kinds[|kinds| - 1] == k then 1 else 0
  }

  /** controller_hs for the controller created after `c` others: 1, then 0, alternating. */
  function Hand(c: nat): nat
  {
    if c % 2 == 0 then 1 else 0
  }

  /** The device the driver creates for entry j of a layout: counters and hand taken from the entries before it. */
  function FreshNode(kinds: seq<Kind>, j: nat): (n: Node)
    requires j < |kinds|
    ensures n.kind == kinds[j] && n.index == Count(kinds[..j], kinds[j]) && n.powered
    ensures n.kind == Controller ==> n.hand == Hand(Count(kinds[..j], Controller))
  {
    Node(kinds[j], Count(kinds[..j], kinds[j]), if kinds[j] == Controller then Hand(Count(kinds[..j], Controller)) else 0, true)
  }

  /** The serials a layout claims: one per entry. */
  function Claimed(kinds: seq<Kind>): set<(Kind, nat)>
  {
    set j | 0 <= j < |kinds| :: KeyOf(FreshNode(kinds, j))
  }

  /** The first device of `pool` with the given serial, as std::find_if finds it. */
  function FindKey(pool: seq<Node>, key: (Kind, nat)): (r: Option<nat>)
    ensures r.Some? ==> r.value < |pool| && KeyOf(pool[r.value]) == key
    ensures r.Some? ==> forall i :: 0 <= i < r.value ==> KeyOf(pool[i]) != key
    ensures r.None? ==> forall n :: n in pool ==> KeyOf(n) != key
  {
    if |pool| == 0 then None
    else if KeyOf(pool[0]) == key then Some(0)
    else match FindKey(pool[1..], key)
      case Some(i) => Some(i + 1)
      case None => None
  }

  /**
   * The device entry j of a layout ends up as: the owned device with that
   * serial, powered on, if there is one; a new device otherwise.
   */
  function Placement(pool: seq<Node>, kinds: seq<Kind>, j: nat): (n: Node)
    requires j < |kinds|
    ensures KeyOf(n) == KeyOf(FreshNode(kinds, j)) && n.powered
  {
    match FindKey(pool, KeyOf(FreshNode(kinds, j)))
    case Some(i) => pool[i].(powered := true)
    case None => FreshNode(kinds, j)
  }

  /** The active devices hold one placement per layout entry, in layout order. */
  predicate Placed(devices: seq<Node>, kinds: seq<Kind>, pool: seq<Node>)
  {
    |devices| == |kinds| && forall j :: 0 <= j < |kinds| ==> devices[j] == Placement(pool, kinds, j)
  }

  /** The standby devices are the pool's devices whose serials the layout does not claim, each once. */
  predicate StandbyFor(standby: seq<Node>, pool: seq<Node>, kinds: seq<Kind>)
  {
    UniqueKeys(standby) &&
    (forall n :: n in standby ==> n in pool && KeyOf(n) !in Claimed(kinds)) &&
    (forall n :: n in pool && KeyOf(n) !in Claimed(kinds) ==> n in standby)
  }

  /** The devices powered off. */
  function Off(nodes: seq<Node>): (r: seq<Node>)
    ensures |r| == |nodes| && forall i :: 0 <= i < |nodes| ==> r[i] == nodes[i].(powered := false)
  {
    seq(|nodes|, i requires 0 <= i < |nodes| => nodes[i].(powered := false))
  }

  /** A device listed later has seen every earlier device of its type, so its counter is larger. */
  lemma {:induction false} CountGrows(kinds: seq<Kind>, j: nat)
    requires j < |kinds|
    ensures Count(kinds[..j], kinds[j]) < Count(kinds, kinds[j])
    decreases |kinds|
  {
    var last := |kinds| - 1;
    assert kinds[..last] == kinds[..|kinds| - 1];
    if j < last {
      assert kinds[..last][..j] == kinds[..j] && kinds[..last][j] == kinds[j];
      CountGrows(kinds[..last], j);
    }
  }

  /** Adding one entry leaves the earlier entries' devices as they were. */
  lemma FreshNodeOfLonger(kinds: seq<Kind>, k: Kind, j: nat)
    requires j < |kinds|
    ensures FreshNode(kinds + [k], j) == FreshNode(kinds, j)
  {
    assert (kinds + [k])[..j] == kinds[..j];
  }

  /** The entry added last claims the serial (k, Count(kinds, k)), which no earlier entry claimed. */
  lemma ClaimStep(kinds: seq<Kind>, k: Kind)
    ensures KeyOf(FreshNode(kinds + [k], |kinds|)) == (k, Count(kinds, k))
    ensures Claimed(kinds + [k]) == Claimed(kinds) + {(k, Count(kinds, k))}
    ensures (k, Count(kinds, k)) !in Claimed(kinds)
  {
    var longer := kinds + [k];
    assert longer[..|kinds|] == kinds;
    forall j | 0 <= j < |kinds|
      ensures FreshNode(longer, j) == FreshNode(kinds, j)
    {
      FreshNodeOfLonger(kinds, k, j);
    }
    forall j | 0 <= j < |kinds| && kinds[j] == k
      ensures KeyOf(FreshNode(kinds, j)) != (k, Count(kinds, k))
    {
      CountGrows(kinds, j);
    }
    assert Claimed(longer) == Claimed(kinds) + {KeyOf(FreshNode(longer, |kinds|))};
  }

  /** The serials a layout claims are all different. */
  lemma ClaimsDistinct(kinds: seq<Kind>, i: nat, j: nat)
    requires i < j < |kinds|
    ensures KeyOf(FreshNode(kinds, i)) != KeyOf(FreshNode(kinds, j))
  {
    if kinds[i] == kinds[j] {
      var pre := kinds[..j];
      assert pre[..i] == kinds[..i] && pre[i] == kinds[i];
      CountGrows(pre, i);
    }
  }

  /** Placed devices carry distinct serials. */
  lemma PlacedUnique(devices: seq<Node>, kinds: seq<Kind>, pool: seq<Node>)
    requires Placed(devices, kinds, pool)
    ensures UniqueKeys(devices)
    ensures forall j :: 0 <= j < |devices| ==> KeyOf(devices[j]) in Claimed(kinds) && devices[j].powered
  {
    forall i, j | 0 <= i < j < |devices|
      ensures KeyOf(devices[i]) != KeyOf(devices[j])
    {
      ClaimsDistinct(kinds, i, j);
    }
  }

  /** Active devices with claimed serials next to standby devices without: still all distinct. */
  lemma UniqueAcross(devices: seq<Node>, standby: seq<Node>, kinds: seq<Kind>, pool: seq<Node>)
    requires Placed(devices, kinds, pool) && StandbyFor(standby, pool, kinds)
    ensures UniqueKeys(devices + standby)
  {
    PlacedUnique(devices, kinds, pool);
    var all := devices + standby;
    forall i, j | 0 <= i < j < |all|
      ensures KeyOf(all[i]) != KeyOf(all[j])
    {
      if j >= |devices| {
        assert all[j] == standby[j - |devices|];
        assert all[j] in standby;
        if i < |devices| {
          assert all[i] == devices[i];
        } else {
          assert all[i] == standby[i - |devices|];
        }
      } else {
        assert all[i] == devices[i] && all[j] == devices[j];
      }
    }
  }

  /** Keys that are unique in a sequence are unique in any sequence with an element removed. */
  lemma UniqueWithout(s: seq<Node>, p: nat)
    requires p < |s| && UniqueKeys(s)
    ensures UniqueKeys(s[..p] + s[p + 1..])
    ensures forall n :: n in s[..p] + s[p + 1..] <==> n in s && n != s[p]
  {
    var t := s[..p] + s[p + 1..];
    forall i | 0 <= i < |t|
      ensures t[i] == s[if i < p then i else i + 1]
    {
    }
    forall n | n in s && n != s[p]
      ensures n in t
    {
      var i :| 0 <= i < |s| && s[i] == n;
      assert i != p;
      assert t[if i < p then i else i - 1] == n;
    }
  }

  /** One more layout entry, as the last one read. */
  lemma KnownKindsStep(names: seq<string>, j: nat)
    requires j < |names|
    ensures KindOf(names[j]).Some? ==> KnownKinds(names[..j + 1]) == KnownKinds(names[..j]) + [KindOf(names[j]).value]
    ensures KindOf(names[j]).None? ==> KnownKinds(names[..j + 1]) == KnownKinds(names[..j])
  {
    assert names[..j + 1][..j] == names[..j];
  }

  /**
   * Placing the device for one more layout entry when the standby list
   * holds a device with its serial: that device moves to the active list
   * powered on; the active list is then the placement of the longer layout
   * and the standby list holds the unclaimed rest.
   */
  lemma PlaceReused(devices: seq<Node>, standby: seq<Node>, kinds: seq<Kind>, pool: seq<Node>, k: Kind, p: nat)
    requires Placed(devices, kinds, pool) && StandbyFor(standby, pool, kinds) && UniqueKeys(pool)
    requires FindKey(standby, (k, Count(kinds, k))) == Some(p)
    ensures Placed(devices + [standby[p].(powered := true)], kinds + [k], pool)
    ensures StandbyFor(standby[..p] + standby[p + 1..], pool, kinds + [k])
  {
    var longer := kinds + [k];
    ClaimStep(kinds, k);
    forall j | 0 <= j < |kinds|
      ensures Placement(pool, longer, j) == Placement(pool, kinds, j)
    {
      FreshNodeOfLonger(kinds, k, j);
    }
    var n := standby[p];
    assert n in standby;
    var i :| 0 <= i < |pool| && pool[i] == n;
    assert FindKey(pool, (k, Count(kinds, k))) == Some(i);
    UniqueWithout(standby, p);
  }

  /**
   * Placing the device for one more layout entry when no standby device
   * has its serial: no device the driver owned had it, and a new device is
   * appended; the standby list stays as it is.
   */
  lemma PlaceNew(devices: seq<Node>, standby: seq<Node>, kinds: seq<Kind>, pool: seq<Node>, k: Kind)
    requires Placed(devices, kinds, pool) && StandbyFor(standby, pool, kinds)
    requires FindKey(standby, (k, Count(kinds, k))).None?
    ensures Placed(devices + [FreshNode(kinds + [k], |kinds|)], kinds + [k], pool)
    ensures StandbyFor(standby, pool, kinds + [k])
  {
    var longer := kinds + [k];
    ClaimStep(kinds, k);
    forall j | 0 <= j < |kinds|
      ensures Placement(pool, longer, j) == Placement(pool, kinds, j)
    {
      FreshNodeOfLonger(kinds, k, j);
    }
    assert FindKey(pool, (k, Count(kinds, k))).None?;
  }

  /** One more entry counts once more for its own type and leaves the other counts alone. */
  lemma CountStep(kinds: seq<Kind>, k: Kind, other: Kind)
    ensures Count(kinds + [k], other) == Count(kinds, other) + if k == other then 1 else 0
  {
    assert (kinds + [k])[..|kinds|] == kinds;
  }

  /** The device created for the entry read last: the current counter of its type, and for a controller the current hand. */
  lemma FreshLast(kinds: seq<Kind>, k: Kind)
    ensures FreshNode(kinds + [k], |kinds|) ==
      Node(k, Count(kinds, k), if k == Controller then Hand(Count(kinds, Controller)) else 0, true)
  {
    assert (kinds + [k])[..|kinds|] == kinds;
  }

  /** Moving the active devices, powered off, behind the standby ones keeps every serial distinct. */
  lemma PoolUnique(devices: seq<Node>, standby: seq<Node>)
    requires UniqueKeys(devices + standby)
    ensures UniqueKeys(standby + Off(devices))
  {
    var all := devices + standby;
    var pool := standby + Off(devices);
    forall i | 0 <= i < |pool|
      ensures KeyOf(pool[i]) == KeyOf(all[if i < |standby| then i + |devices| else i - |standby|])
    {
    }
    forall i, j | 0 <= i < j < |pool|
      ensures KeyOf(pool[i]) != KeyOf(pool[j])
    {
      var a := if i < |standby| then i + |devices| else i - |standby|;
      var b := if j < |standby| then j + |devices| else j - |standby|;
      assert a != b;
      if a < b {
        assert KeyOf(all[a]) != KeyOf(all[b]);
      } else {
        assert KeyOf(all[b]) != KeyOf(all[a]);
      }
    }
  }

  /** Every controller holds the hand its counter gives it: c0 the first hand, c1 the other, and so on. */
  predicate HandsRight(s: seq<Node>)
  {
    forall n :: n in s && n.kind == Controller ==> n.hand == Hand(n.index)
  }

  /** Placing a layout keeps controllers on their hands, whether a device is taken back or created. */
  lemma PlacedHands(devices: seq<Node>, kinds: seq<Kind>, pool: seq<Node>)
    requires Placed(devices, kinds, pool) && HandsRight(pool)
    ensures HandsRight(devices)
  {
    forall j | 0 <= j < |devices| && devices[j].kind == Controller
      ensures devices[j].hand == Hand(devices[j].index)
    {
      match FindKey(pool, KeyOf(FreshNode(kinds, j)))
      case Some(i) => assert pool[i] in pool;
      case None =>
    }
  }

  /**
   * Searching the standby list for the serial of the next entry finds a
   * device exactly when the whole pool holds one: the serial is not yet
   * claimed, so its device, if any, is still on standby.
   */
  lemma StandbyFinds(standby: seq<Node>, pool: seq<Node>, kinds: seq<Kind>, k: Kind)
    requires StandbyFor(standby, pool, kinds)
    ensures FindKey(standby, (k, Count(kinds, k))).None? <==> FindKey(pool, (k, Count(kinds, k))).None?
  {
    var key := (k, Count(kinds, k));
    ClaimStep(kinds, k);
    match FindKey(pool, key)
    case Some(i) => assert pool[i] in standby;
    case None =>
  }

  /** The serials of the devices a layout creates anew: those of its entries the pool has no device for, in order. */
  function NewSerials(pool: seq<Node>, kinds: seq<Kind>): (r: seq<string>)
    ensures |r| <= |kinds|
  {
    if |kinds| == 0 then []
    else
      var n := FreshNode(kinds, |kinds| - 1);
      NewSerials(pool, kinds[..|kinds| - 1]) + if FindKey(pool, KeyOf(n)).None? then [Serial(n)] else []
  }

  /** With nothing to take back, a layout creates one device per entry. */
  lemma {:induction false} NewSerialsOfNothing(kinds: seq<Kind>)
    ensures |NewSerials([], kinds)| == |kinds|
  {
    if |kinds| > 0 {
      NewSerialsOfNothing(kinds[..|kinds| - 1]);
    }
  }

  /** One more entry creates a device exactly when the pool has none with its serial. */
  lemma NewSerialsStep(pool: seq<Node>, kinds: seq<Kind>, k: Kind)
    ensures NewSerials(pool, kinds + [k]) == NewSerials(pool, kinds) +
      if FindKey(pool, (k, Count(kinds, k))).None? then [SerialOf(k, Count(kinds, k))] else []
  {
    assert (kinds + [k])[..|kinds|] == kinds;
    FreshLast(kinds, k);
  }

  /** When every entry names a type, each entry gets a device, entry i the i-th. */
  lemma {:induction false} AllKnown(names: seq<string>)
    requires forall i :: 0 <= i < |names| ==> KindOf(names[i]).Some?
    ensures |KnownKinds(names)| == |names|
    ensures forall i :: 0 <= i < |names| ==> KnownKinds(names)[i] == KindOf(names[i]).value
  {
    if |names| > 0 {
      var init := names[..|names| - 1];
      AllKnown(init);
    }
  }

  /** controller_hs flips with every controller. */
  lemma HandStep(c: nat)
    ensures Hand(c + 1) == if Hand(c) == 1 then 0 else 1
  {
  }
}
