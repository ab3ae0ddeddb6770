/**
 * The serial-port readers and marker helpers of the Python bindings
 * (bindings/python/virtualposers/util/utilz.py): a fixed-size binary packet
 * reader, a reader of packets tagged with a heading, the contour summary
 * and the marker colour bounds. Unpacking bytes into floats and booleans is
 * not modelled: a decoded packet is kept as its fields' bytes.
 */
module SerialUtil {
  import opened Wrappers
  import opened Framing
  import opened SockUtil

  type Byte = b: int | 0 <= b < 256

  /** The serial packet terminator b'\t\r\n'. */
  const Terminator: seq<Byte> := [9, 13, 10]

  /** The struct format 'f' packs a 4-byte float. */
  const FloatSize: nat := 4

  /** The struct module's error: the packet is shorter than the format. */
  datatype UnpackError = StructError

  /** Cut a packet into `count` fields of `size` bytes, in order. */
  function Fields(packet: seq<Byte>, count: nat, size: nat): seq<seq<Byte>>
  {
    SplitPkSpec(packet, seq(count, _ => size))
  }

  lemma {:induction false} SumRepeat(count: nat, size: nat)
    ensures Sum(seq(count, _ => size)) == count * size
  {
    if count > 0 {
      assert seq(count, _ => size)[1..] == seq(count - 1, _ => size);
      SumRepeat(count - 1, size);
    }
  }

  /** A packet of count*size bytes is cut into count fields of size bytes that together are the packet. */
  lemma FieldsOfPacket(packet: seq<Byte>, count: nat, size: nat)
    requires |packet| == count * size
    ensures |Fields(packet, count, size)| == count
    ensures forall k :: 0 <= k < count ==> |Fields(packet, count, size)[k]| == size
    ensures Concat(Fields(packet, count, size)) == packet
  {
    var sizes := seq(count, _ => size);
    SumRepeat(count, size);
    SplitPkFits(packet, sizes);
    SplitPkContiguous(packet, sizes);
  }

  /**
   * SerialReaderBinary: keeps the last packet whose length is
   * struct_len*type_len, as struct_len floats.
   */
  class SerialReaderBinary {
    const structCount: nat
    const structLen: nat
    var lastPacket: Option<seq<seq<Byte>>>

    /** The struct type is 'f'; the expected length is structCount*typeLen bytes. */
    constructor(structCount: nat, typeLen: nat)
      ensures this.structCount == structCount && structLen == structCount * typeLen
      ensures lastPacket == None
    {
      this.structCount := structCount;
      structLen := structCount * typeLen;
      lastPacket := None;
    }

    /**
     * handle_packet: a packet of the expected length replaces the last
     * packet; unpack_from fails when it is shorter than the floats it must
     * hold (a type length under 4), and reads only its front when longer.
     * Any other packet is ignored.
     */
    method HandlePacket(packet: seq<Byte>) returns (r: Result<(), UnpackError>)
      modifies this
      ensures |packet| != structLen ==> r.Ok? && lastPacket == old(lastPacket)
      ensures |packet| == structLen && |packet| < structCount * FloatSize ==>
        r == Err(StructError) && lastPacket == old(lastPacket)
      ensures |packet| == structLen && |packet| >= structCount * FloatSize ==>
        r.Ok? && lastPacket.Some? &&
        |lastPacket.value| == structCount &&
        (forall k :: 0 <= k < structCount ==> |lastPacket.value[k]| == FloatSize) &&
        Concat(lastPacket.value) == packet[..structCount * FloatSize]
    {
      if |packet| == structLen {
        if |packet| < structCount * FloatSize {
          return Err(StructError);
        }
        var front := packet[..structCount * FloatSize];
        FieldsOfPacket(front, structCount, FloatSize);
        lastPacket := Some(Fields(front, structCount, FloatSize));
      }
      return Ok(());
    }
  }

  const Hmd: seq<Byte> := [104, 109, 100, 58]
  const LeftController: seq<Byte> := [108, 99, 58]
  const RightController: seq<Byte> := [114, 99, 58]

  /** HEADINGS, in the order a packet is searched for them. */
  const Headings: seq<seq<Byte>> := [Hmd, LeftController, RightController]

  /** The field sizes of HEADING_FORMS: '4f' for the headset, '7f5?' for a controller. */
  function FieldSizes(h: seq<Byte>): (sizes: seq<nat>)
    requires h in Headings
    ensures Sum(sizes) == if h == Hmd then 16 else 33
  {
    if h == Hmd then
      var s: seq<nat> := [4, 4, 4, 4];
      assert Sum(s) == 16;
      s
    else
      var s: seq<nat> := [4, 4, 4, 4, 4, 4, 4, 1, 1, 1, 1, 1];
      assert Sum(s) == 33;
      s
  }

  /** A decoded headed packet: its heading and the bytes of its fields. */
  datatype HeadedPacket = HeadedPacket(heading: seq<Byte>, fields: seq<seq<Byte>>)

  /**
   * handle_packet of the multi reader: an unknown heading or a section
   * shorter than calcsize(form) leaves the last packet alone; otherwise the
   * section's first calcsize(form) bytes, cut into the form's fields,
   * become the last packet.
   */
  function HandleHeaded(last: Option<HeadedPacket>, h: seq<Byte>, data: seq<Byte>): (r: Option<HeadedPacket>)
    ensures h !in Headings ==> r == last
    ensures h in Headings && |data| < Sum(FieldSizes(h)) ==> r == last
    ensures h in Headings && |data| >= Sum(FieldSizes(h)) ==>
      r.Some? && r.value.heading == h && Lengths(r.value.fields) == FieldSizes(h) &&
      Concat(r.value.fields) == data[..Sum(FieldSizes(h))]
  {
    if h !in Headings then last
    else
      var check := Sum(FieldSizes(h));
      var section := if |data| <= check then data else data[..check];
      if |section| != check then last
      else
        ShapeOfSplitPk(section, FieldSizes(h));
        SplitPkContiguous(section, FieldSizes(h));
        Some(HeadedPacket(h, SplitPkSpec(section, FieldSizes(h))))
  }

  /** The part of the packet behind the first occurrence of the heading. */
  function AfterHeading(packet: seq<Byte>, h: seq<Byte>): seq<Byte>
    requires h in Headings && Contains(packet, h)
  {
    SplitOnce(packet, h).value.1
  }

  /** The last packet after dispatching the first n headings found in `packet`, in HEADINGS order. */
  function DispatchUpTo(last: Option<HeadedPacket>, packet: seq<Byte>, n: nat): Option<HeadedPacket>
    requires n <= |Headings|
  {
    if n == 0 then last
    else
      var before := DispatchUpTo(last, packet, n - 1);
      var h := Headings[n - 1];
      if Contains(packet, h) then HandleHeaded(before, h, AfterHeading(packet, h)) else before
  }

  /** One more heading: it is handled with the part behind it if the packet holds it. */
  lemma DispatchOneMore(last: Option<HeadedPacket>, packet: seq<Byte>, i: nat)
    requires i < |Headings|
    ensures var before, h := DispatchUpTo(last, packet, i), Headings[i];
      DispatchUpTo(last, packet, i + 1) ==
        if Contains(packet, h) then HandleHeaded(before, h, SplitOnce(packet, h).value.1) else before
  {
  }

  /** The last packet after dispatching every packet in turn. */
  function AfterPackets(last: Option<HeadedPacket>, packets: seq<seq<Byte>>): Option<HeadedPacket>
  {
    if packets == [] then last
    else DispatchUpTo(AfterPackets(last, packets[..|packets| - 1]), packets[|packets| - 1], |Headings|)
  }

  /** A packet with a complete right-controller section is decoded as that section, whatever precedes it. */
  lemma RightControllerWins(last: Option<HeadedPacket>, packet: seq<Byte>)
    requires Contains(packet, RightController)
    requires |AfterHeading(packet, RightController)| >= 33
    ensures var r := DispatchUpTo(last, packet, |Headings|);
      r.Some? && r.value.heading == RightController &&
      Concat(r.value.fields) == AfterHeading(packet, RightController)[..33]
  {
  }

  /** A packet holding no heading leaves the last packet alone. */
  lemma NoHeadingIgnored(last: Option<HeadedPacket>, packet: seq<Byte>)
    requires forall k :: 0 <= k < |Headings| ==> !Contains(packet, Headings[k])
    ensures DispatchUpTo(last, packet, |Headings|) == last
  {
    assert !Contains(packet, Headings[0]) && !Contains(packet, Headings[1]) && !Contains(packet, Headings[2]);
    assert DispatchUpTo(last, packet, 1) == last;
    assert DispatchUpTo(last, packet, 2) == last;
  }

  /** SerialReaderMultiBinary: the receive buffer and the last decoded headed packet. */
  class SerialReaderMultiBinary {
    var buffer: seq<Byte>
    var lastPacket: Option<HeadedPacket>

    constructor()
      ensures buffer == [] && lastPacket == None
    {
      buffer := [];
      lastPacket := None;
    }

    /** handle_packet for one (heading, data) pair. */
    method HandlePacket(h: seq<Byte>, data: seq<Byte>)
      modifies this
      ensures lastPacket == HandleHeaded(old(lastPacket), h, data)
      ensures buffer == old(buffer)
    {
      if h !in Headings {
        return;
      }
      var check := Sum(FieldSizes(h));
      var section := if |data| <= check then data else data[..check];
      if |section| != check {
        return;
      }
      lastPacket := HandleHeaded(lastPacket, h, data);
    }

    /** The loop over HEADINGS for one packet: each heading it holds is handled with the part behind it. */
    method DispatchPacket(packet: seq<Byte>)
      modifies this
      ensures lastPacket == DispatchUpTo(old(lastPacket), packet, |Headings|)
      ensures buffer == old(buffer)
    {
      var i := 0;
      while i < |Headings|
        invariant 0 <= i <= |Headings| && buffer == old(buffer)
        invariant lastPacket == DispatchUpTo(old(lastPacket), packet, i)
      {
        var h := Headings[i];
        DispatchOneMore(old(lastPacket), packet, i);
        if Contains(packet, h) {
          var p := SplitOnce(packet, h).value.1;
          HandlePacket(h, p);
        }
        i := i + 1;
      }
    }

    /**
     * data_received: append the data, then cut off every complete packet in
     * front of a terminator and dispatch each heading it holds, in HEADINGS
     * order; only the tail behind the last terminator stays buffered.
     */
    method DataReceived(data: seq<Byte>)
      modifies this
      ensures buffer == Frames(old(buffer) + data, Terminator).1
      ensures lastPacket == AfterPackets(old(lastPacket), Frames(old(buffer) + data, Terminator).0)
    {
      buffer := buffer + data;
      ghost var whole := buffer;
      ghost var done: seq<seq<Byte>> := [];
      DrainStart(whole, Terminator);
      while Contains(buffer, Terminator)
        invariant Draining(whole, done, buffer, Terminator)
        invariant lastPacket == AfterPackets(old(lastPacket), done)
        decreases |buffer|
      {
        var split := SplitOnce(buffer, Terminator).value;
        var packet := split.0;
        DrainStep(whole, done, buffer, Terminator);
        AfterOneMore(old(lastPacket), done, packet);
        DispatchPacket(packet);
        done := done + [packet];
        buffer := split.1;
      }
      DrainDone(whole, done, buffer, Terminator);
    }
  }

  /** Dispatching one more packet continues from where the earlier ones left the last packet. */
  lemma AfterOneMore(last: Option<HeadedPacket>, done: seq<seq<Byte>>, packet: seq<Byte>)
    ensures AfterPackets(last, done + [packet]) == DispatchUpTo(AfterPackets(last, done), packet, |Headings|)
  {
    assert (done + [packet])[..|done|] == done;
  }

  /** The reader decodes every packet a device sends, in order: framing a terminated stream loses nothing. */
  lemma ReaderSeesEveryPacket(ps: seq<seq<Byte>>, tail: seq<Byte>)
    requires forall k :: 0 <= k < |ps| ==> !Contains(ps[k], Terminator)
    requires !Contains(tail, Terminator)
    ensures Frames(Joined(ps, Terminator) + tail, Terminator) == (ps, tail)
  {
    forall m | 0 < m < |Terminator|
      ensures Terminator[..m] != Terminator[|Terminator| - m..]
    {
      assert Terminator[..m][0] == 9 != Terminator[|Terminator| - m..][0];
    }
    FramesUnique(ps, tail, Terminator);
  }

  /** The summary cnt_2_x_y_w gives of a contour: its centre and its width. */
  datatype Blob = Blob(x: real, y: real, w: int)

  /** numpy's min and max raise on an empty contour. */
  datatype ContourError = EmptyContour

  function MinOf(s: seq<int>): (m: int)
    requires |s| > 0
    ensures m in s && forall k :: 0 <= k < |s| ==> m <= s[k]
  {
    if |s| == 1 then s[0]
    else
      var rest := MinOf(s[1..]);
      assert forall k :: 1 <= k < |s| ==> s[k] == s[1..][k - 1];
      if s[0] <= rest then s[0] else rest
  }

  function MaxOf(s: seq<int>): (m: int)
    requires |s| > 0
    ensures m in s && forall k :: 0 <= k < |s| ==> s[k] <= m
  {
    if |s| == 1 then s[0]
    else
      var rest := MaxOf(s[1..]);
      assert forall k :: 1 <= k < |s| ==> s[k] == s[1..][k - 1];
      if s[0] >= rest then s[0] else rest
  }

  function Xs(points: seq<(int, int)>): seq<int>
  {
    seq(|points|, k requires 0 <= k < |points| => points[k].0)
  }

  function Ys(points: seq<(int, int)>): seq<int>
  {
    seq(|points|, k requires 0 <= k < |points| => points[k].1)
  }

  /**
   * cnt_2_x_y_w: the midpoint of the smallest and largest x, the same for
   * y, and the x extent.
   */
  function Cnt2XYW(points: seq<(int, int)>): (r: Result<Blob, ContourError>)
    ensures points == [] <==> r.Err?
  {
    if points == [] then Err(EmptyContour)
    else
      var xs, ys := Xs(points), Ys(points);
      Ok(Blob((MinOf(xs) + MaxOf(xs)) as real / 2.0, (MinOf(ys) + MaxOf(ys)) as real / 2.0, MaxOf(xs) - MinOf(xs)))
  }

  /**
   * The contour lies in the box the summary describes: every point's x is
   * within half the width of the centre, the width is not negative, and
   * the box touches the contour on the left and on the right.
   */
  lemma ContourInBox(points: seq<(int, int)>)
    requires points != []
    ensures var b := Cnt2XYW(points).value;
      b.w >= 0 &&
      (forall k :: 0 <= k < |points| ==>
        b.x - b.w as real / 2.0 <= points[k].0 as real <= b.x + b.w as real / 2.0) &&
      (exists k :: 0 <= k < |points| && points[k].0 as real == b.x - b.w as real / 2.0) &&
      (exists k :: 0 <= k < |points| && points[k].0 as real == b.x + b.w as real / 2.0) &&
      (exists k :: 0 <= k < |points| && points[k].1 as real <= b.y) &&
      (exists k :: 0 <= k < |points| && points[k].1 as real >= b.y)
  {
    var xs, ys := Xs(points), Ys(points);
    var lo, hi := MinOf(xs), MaxOf(xs);
    assert forall k :: 0 <= k < |points| ==> xs[k] == points[k].0;
    var i :| 0 <= i < |xs| && xs[i] == lo;
    var j :| 0 <= j < |xs| && xs[j] == hi;
    assert points[i].0 == lo && points[j].0 == hi;
    var ylo, yhi := MinOf(ys), MaxOf(ys);
    var p :| 0 <= p < |ys| && ys[p] == ylo;
    var q :| 0 <= q < |ys| && ys[q] == yhi;
    assert points[p].1 == ylo && points[q].1 == yhi;
  }

  /** A marker's colour mask: centre and range for hue, saturation and value. */
  datatype MarkerMask = MarkerMask(hueCenter: real, hueRange: real, satCenter: real, satRange: real, valCenter: real, valRange: real)

  /** The low and high bounds of one mask, channel by channel (hue, saturation, value). */
  datatype Bounds = Bounds(low: seq<real>, high: seq<real>)

  /** BlobTracker.__init__: low = centre - range and high = centre + range for each channel, unclamped. */
  function MarkerBounds(m: MarkerMask): (b: Bounds)
    ensures |b.low| == |b.high| == 3
  {
    var centers := [m.hueCenter, m.satCenter, m.valCenter];
    var ranges := [m.hueRange, m.satRange, m.valRange];
    Bounds(seq(3, k requires 0 <= k < 3 => centers[k] - ranges[k]),
           seq(3, k requires 0 <= k < 3 => centers[k] + ranges[k]))
  }

  /** The bounds give the mask back: their midpoint is the centre and half their distance the range. */
  lemma MarkerBoundsInverse(m: MarkerMask)
    ensures var b := MarkerBounds(m);
      (b.low[0] + b.high[0]) / 2.0 == m.hueCenter && (b.high[0] - b.low[0]) / 2.0 == m.hueRange &&
      (b.low[1] + b.high[1]) / 2.0 == m.satCenter && (b.high[1] - b.low[1]) / 2.0 == m.satRange &&
      (b.low[2] + b.high[2]) / 2.0 == m.valCenter && (b.high[2] - b.low[2]) / 2.0 == m.valRange
  {
  }

  /** The marker bounds of every mask, in order. */
  function MarkerMasks(masks: seq<MarkerMask>): (r: seq<Bounds>)
    ensures |r| == |masks| && forall k :: 0 <= k < |r| ==> r[k] == MarkerBounds(masks[k])
  {
    seq(|masks|, k requires 0 <= k < |masks| => MarkerBounds(masks[k]))
  }
}
