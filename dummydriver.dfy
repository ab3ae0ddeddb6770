/**
 * The Python debugging receivers of virtualreality/util/driver.py: they
 * read the driver stream in chunks, cut it into '\n'-terminated packets and
 * keep the last packet that holds the expected number of values (one flat
 * pose, or one pose per device of a layout).
 */
module DummyDriver {
  import opened Wrappers
  import opened Framing
  import opened Text
  import opened Numbers
  import opened SockUtil
  import opened PoseUtil

  /** What one socket.recv gave: data (empty once the peer closed), a timeout, or another exception. */
  datatype RecvEvent = Data(bytes: string) | Timeout | Failure

  /** The exception the layout receiver's constructor raises. */
  datatype InitError = InvalidPoseStruct

  const NewLine: string := "\n"

  /** Every byte the events deliver, in order. */
  function DataOf(events: seq<RecvEvent>): string
  {
    if |events| == 0 then [] else DataOf(events[..|events| - 1]) + Chunk(events[|events| - 1])
  }

  /** The bytes one event delivers. */
  function Chunk(event: RecvEvent): string
  {
    match event
    case Data(b) => b
    case _ => []
  }

  /** The loop of run goes on after an event iff it was a timeout or non-empty data. */
  predicate KeepsReceiving(event: RecvEvent)
  {
    event.Timeout? || (event.Data? && |event.bytes| > 0)
  }

  /** None of the first n events ended the loop. */
  predicate AllKeepReceiving(events: seq<RecvEvent>, n: int)
  {
    forall k :: 0 <= k < n && k < |events| ==> KeepsReceiving(events[k])
  }

  /** The numbers of a packet: newlines, then spaces, stripped from both ends, then read with a space separator. */
  function PacketNumbers(packet: string): seq<real>
  {
    GetNumbersFromText(Strip(Strip(packet, {'\n'}), {' '}), " ")
  }

  /** The flat receiver keeps a packet when it has no listed letter and holds exactly eps numbers. */
  predicate AcceptsFlat(packet: string, eps: int)
  {
    !SharesCharacters(Lower(packet), Letters) && |PacketNumbers(packet)| == eps
  }

  /** The pose after the flat receiver handled `packets` in turn. */
  function FlatPoseAfter(pose: seq<real>, eps: int, packets: seq<string>): seq<real>
  {
    if |packets| == 0 then pose
    else
      var p := packets[|packets| - 1];
      if AcceptsFlat(p, eps) then PacketNumbers(p) else FlatPoseAfter(pose, eps, packets[..|packets| - 1])
  }

  /** The poses of a packet cut by the layout. */
  function PacketPoses(packet: string, eps: seq<nat>): seq<seq<real>>
  {
    ParsePosesFromPacket(PacketNumbers(packet), eps)
  }

  /** The layout receiver keeps a packet when it has no listed letter and its poses have the layout's shape. */
  predicate AcceptsLayout(packet: string, eps: seq<nat>)
  {
    !SharesCharacters(Lower(packet), Letters) && Lengths(PacketPoses(packet, eps)) == eps
  }

  /** The poses after the layout receiver handled `packets` in turn. */
  function LayoutPosesAfter(poses: seq<seq<real>>, eps: seq<nat>, packets: seq<string>): seq<seq<real>>
  {
    if |packets| == 0 then poses
    else
      var p := packets[|packets| - 1];
      if AcceptsLayout(p, eps) then PacketPoses(p, eps) else LayoutPosesAfter(poses, eps, packets[..|packets| - 1])
  }

  /**
   * The layout receiver takes a packet whenever it holds at least as many
   * numbers as the layout needs: numbers beyond the layout are dropped
   * without complaint.
   */
  lemma LayoutAcceptsLongPackets(packet: string, eps: seq<nat>)
    requires !SharesCharacters(Lower(packet), Letters)
    ensures AcceptsLayout(packet, eps) <==> Sum(eps) <= |PacketNumbers(packet)|
    ensures AcceptsLayout(packet, eps) ==> Concat(PacketPoses(packet, eps)) == PacketNumbers(packet)[..Sum(eps)]
  {
    ParsedShape(PacketNumbers(packet), eps);
    ParsePosesConsumes(PacketNumbers(packet), eps);
  }

  /**
   * With an expected size of 0 the flat receiver takes every packet
   * without letters, readable or not, and the pose becomes empty.
   */
  lemma ZeroSizeTakesAnything(packet: string)
    requires !SharesCharacters(Lower(packet), Letters)
    requires PacketNumbers(packet) == []
    ensures AcceptsFlat(packet, 0)
  {
  }

  /** Handling one more packet either takes it or keeps the pose handled so far. */
  lemma FlatPoseAfterStep(pose: seq<real>, eps: int, packets: seq<string>, p: string)
    ensures FlatPoseAfter(pose, eps, packets + [p])
         == if AcceptsFlat(p, eps) then PacketNumbers(p) else FlatPoseAfter(pose, eps, packets)
  {
    PrefixOfAppend(packets, p);
  }

  /** The stream after one more event: its bytes follow what came before. */
  lemma ReceivedOneMore(stream: string, events: seq<RecvEvent>, used: nat)
    requires used < |events|
    ensures stream + DataOf(events[..used + 1]) == stream + DataOf(events[..used]) + Chunk(events[used])
    ensures AllKeepReceiving(events, used) && KeepsReceiving(events[used]) ==> AllKeepReceiving(events, used + 1)
  {
    TakeOneMore(events, used);
    assert DataOf(events[..used + 1]) == DataOf(events[..used]) + Chunk(events[used]);
    AppendAssoc(stream, DataOf(events[..used]), Chunk(events[used]));
  }

  class DummyDriverReceiver {
    const eps: int
    var newPose: seq<real>
    var backBuffer: string
    var alive: bool
    /** What was written to the socket, one write per entry. */
    var sent: seq<string>

    /** The buffer only ever holds the unterminated tail of the stream. */
    predicate Valid()
      reads this
    {
      !Contains(backBuffer, NewLine)
    }

    /** The pose starts as eps zeros (none for a negative size). */
    constructor(expectedPoseSize: int)
      ensures eps == expectedPoseSize && alive && backBuffer == [] && sent == []
      ensures |newPose| == (if eps > 0 then eps else 0) && forall k :: 0 <= k < |newPose| ==> newPose[k] == 0.0
      ensures Valid()
    {
      eps := expectedPoseSize;
      newPose := seq(if expectedPoseSize > 0 then expectedPoseSize else 0, _ => 0.0);
      backBuffer := [];
      alive := true;
      sent := [];
    }

    /** send: the text is written formatted. */
    method Send(text: string)
      modifies this
      ensures sent == old(sent) + [FormatStrForWrite(text)]
      ensures newPose == old(newPose) && backBuffer == old(backBuffer) && alive == old(alive)
    {
      sent := sent + [FormatStrForWrite(text)];
    }

    /** stop: end the receive loop, then say goodbye. */
    method Stop()
      modifies this
      ensures !alive && sent == old(sent) + ["CLOSE\n"]
      ensures newPose == old(newPose) && backBuffer == old(backBuffer)
    {
      alive := false;
      sent := sent + ["CLOSE\n"];
    }

    /**
     * _handlePacket: while alive, a packet without listed letters holding
     * exactly eps numbers replaces the pose and is reported as handled.
     */
    method HandlePacket(packet: string) returns (ok: bool)
      modifies this
      ensures ok <==> alive && AcceptsFlat(packet, eps)
      ensures ok ==> newPose == PacketNumbers(packet)
      ensures !ok ==> newPose == old(newPose)
      ensures backBuffer == old(backBuffer) && alive == old(alive) && sent == old(sent)
    {
      if alive && !SharesCharacters(Lower(packet), Letters) {
        var pose := PacketNumbers(packet);
        if |pose| != eps {
          return false;
        }
        newPose := pose;
        return true;
      }
      return false;
    }

    /**
     * run: receive chunk after chunk while alive; every complete packet is
     * cut off the buffer and handled in order. Empty data or an exception
     * other than a timeout ends the loop, as does running out of events
     * here; afterwards the receiver is not alive. Returns how many events
     * were used and the packets handled.
     */
    method Run(events: seq<RecvEvent>) returns (used: nat, packets: seq<string>)
      requires Valid()
      modifies this
      ensures Valid() && !alive && used <= |events| && sent == old(sent)
      ensures old(alive) ==> (packets, backBuffer) == Frames(old(backBuffer) + DataOf(events[..used]), NewLine)
      ensures old(alive) ==> newPose == FlatPoseAfter(old(newPose), eps, packets)
      ensures old(alive) ==> AllKeepReceiving(events, used - 1)
      ensures old(alive) ==> used == |events| || (used > 0 && !KeepsReceiving(events[used - 1]))
      ensures !old(alive) ==> used == 0 && packets == [] && backBuffer == old(backBuffer) && newPose == old(newPose)
    {
      if !alive {
        return 0, [];
      }
      used, packets := ReceiveAll(events);
      alive := false;
    }

    /** The loop of run while the receiver stays alive: one event per pass until one ends it or none are left. */
    method ReceiveAll(events: seq<RecvEvent>) returns (used: nat, packets: seq<string>)
      requires alive && Valid()
      modifies this
      ensures Valid() && used <= |events| && sent == old(sent)
      ensures (packets, backBuffer) == Frames(old(backBuffer) + DataOf(events[..used]), NewLine)
      ensures newPose == FlatPoseAfter(old(newPose), eps, packets)
      ensures AllKeepReceiving(events, used - 1)
      ensures used == |events| || (used > 0 && !KeepsReceiving(events[used - 1]))
    {
      used := 0;
      packets := [];
      ghost var stream := backBuffer;
      ghost var pose := newPose;
      FramesDone(backBuffer, NewLine);
      assert events[..0] == [];
      AppendEmpty(stream);
      while used < |events|
        invariant alive && used <= |events| && Valid() && sent == old(sent)
        invariant (packets, backBuffer) == Frames(stream + DataOf(events[..used]), NewLine)
        invariant newPose == FlatPoseAfter(pose, eps, packets)
        invariant AllKeepReceiving(events, used)
        decreases |events| - used
      {
        var goOn;
        packets, goOn := Receive(stream + DataOf(events[..used]), pose, packets, events[used]);
        ReceivedOneMore(stream, events, used);
        used := used + 1;
        if !goOn {
          return;
        }
      }
    }

    /**
     * One pass of run's loop: the event's bytes join the buffer, and unless
     * they are empty every complete packet is handled. `stream` is what the
     * buffer and `done` were cut from, `start` the pose before `done`.
     */
    method Receive(ghost stream: string, ghost start: seq<real>, done: seq<string>, event: RecvEvent)
      returns (packets: seq<string>, goOn: bool)
      requires alive && (done, backBuffer) == Frames(stream, NewLine) && newPose == FlatPoseAfter(start, eps, done)
      modifies this
      ensures Valid() && alive && sent == old(sent) && goOn == KeepsReceiving(event)
      ensures (packets, backBuffer) == Frames(stream + Chunk(event), NewLine)
      ensures newPose == FlatPoseAfter(start, eps, packets)
    {
      FramesAppend(stream, Chunk(event), NewLine);
      match event
      case Timeout =>
        assert backBuffer + [] == backBuffer && stream + [] == stream;
        FramesDone(backBuffer, NewLine);
        packets, goOn := done, true;
      case Failure =>
        assert backBuffer + [] == backBuffer && stream + [] == stream;
        FramesDone(backBuffer, NewLine);
        packets, goOn := done, false;
      case Data(data) =>
        backBuffer := backBuffer + data;
        if |data| == 0 {
          assert stream + [] == stream;
          FramesDone(backBuffer, NewLine);
          return done, false;
        }
        packets := TakePackets(start, done);
        goOn := true;
    }

    /**
     * The inner loop of run: while the buffer holds a newline, cut off and
     * handle the packet in front of it. `start` is the pose before `done`
     * was handled.
     */
    method TakePackets(ghost start: seq<real>, done: seq<string>) returns (packets: seq<string>)
      requires alive && newPose == FlatPoseAfter(start, eps, done)
      modifies this
      ensures Valid() && alive && sent == old(sent)
      ensures (packets, backBuffer) == (done + Frames(old(backBuffer), NewLine).0, Frames(old(backBuffer), NewLine).1)
      ensures newPose == FlatPoseAfter(start, eps, packets)
    {
      ghost var all := Frames(backBuffer, NewLine);
      var handled: seq<string> := [];
      AppendEmpty(done);
      while Contains(backBuffer, NewLine)
        invariant alive && sent == old(sent)
        invariant handled + Frames(backBuffer, NewLine).0 == all.0 && Frames(backBuffer, NewLine).1 == all.1
        invariant newPose == FlatPoseAfter(start, eps, done + handled)
        decreases |backBuffer|
      {
        var split := SplitOnce(backBuffer, NewLine).value;
        FramesStep(backBuffer, NewLine);
        ghost var before := newPose;
        var _ := HandlePacket(split.0);
        assert newPose == if AcceptsFlat(split.0, eps) then PacketNumbers(split.0) else before;
        FlatPoseAfterStep(start, eps, done + handled, split.0);
        AppendAssoc(done, handled, [split.0]);
        AppendAssoc(handled, [split.0], Frames(split.1, NewLine).0);
        handled := handled + [split.0];
        backBuffer := split.1;
      }
      FramesDone(backBuffer, NewLine);
      AppendEmpty(handled);
      packets := done + handled;
    }
  }

  /** Handling one more packet either takes its poses or keeps the poses handled so far. */
  lemma LayoutPosesAfterStep(poses: seq<seq<real>>, eps: seq<nat>, packets: seq<string>, p: string)
    ensures LayoutPosesAfter(poses, eps, packets + [p])
         == if AcceptsLayout(p, eps) then PacketPoses(p, eps) else LayoutPosesAfter(poses, eps, packets)
  {
    PrefixOfAppend(packets, p);
  }

  /**
   * UduDummyDriverReceiver.__init__: the layout text is read into device
   * letters and pose sizes; a text that does not match the layout pattern
   * gives no sizes and the receiver refuses to start. Every pose starts as
   * zeros of its size.
   */
  method NewUduReceiver(expectedPoseStruct: string) returns (r: Result<UduDummyDriverReceiver, InitError>)
    ensures r.Err? <==> !MatchesStruct(expectedPoseStruct)
    ensures r.Ok? ==> fresh(r.value) && r.value.Valid() && r.value.alive && r.value.sent == []
    ensures r.Ok? ==> (r.value.deviceOrder, r.value.eps) == GetPoseStructFromText(expectedPoseStruct)
    ensures r.Ok? ==> Lengths(r.value.newPoses) == r.value.eps
    ensures r.Ok? ==> forall k, j :: 0 <= k < |r.value.newPoses| && 0 <= j < |r.value.newPoses[k]| ==> r.value.newPoses[k][j] == 0.0
  {
    var parsed := GetPoseStructFromText(expectedPoseStruct);
    if |parsed.1| == 0 {
      return Err(InvalidPoseStruct);
    }
    var receiver := new UduDummyDriverReceiver(parsed.0, parsed.1);
    return Ok(receiver);
  }

  class UduDummyDriverReceiver {
    const deviceOrder: string
    const eps: seq<nat>
    var newPoses: seq<seq<real>>
    var backBuffer: string
    var alive: bool
    /** What was written to the socket, one write per entry. */
    var sent: seq<string>

    /** The buffer only ever holds the unterminated tail of the stream. */
    predicate Valid()
      reads this
    {
      !Contains(backBuffer, NewLine)
    }

    /** The part of __init__ after the layout was read. */
    constructor(order: string, sizes: seq<nat>)
      ensures deviceOrder == order && eps == sizes && alive && backBuffer == [] && sent == []
      ensures Lengths(newPoses) == sizes
      ensures forall k, j :: 0 <= k < |newPoses| && 0 <= j < |newPoses[k]| ==> newPoses[k][j] == 0.0
      ensures Valid()
    {
      deviceOrder := order;
      eps := sizes;
      newPoses := seq(|sizes|, k requires 0 <= k < |sizes| => seq(sizes[k], _ => 0.0));
      backBuffer := [];
      alive := true;
      sent := [];
    }

    /** send: the text is written formatted. */
    method Send(text: string)
      modifies this
      ensures sent == old(sent) + [FormatStrForWrite(text)]
      ensures newPoses == old(newPoses) && backBuffer == old(backBuffer) && alive == old(alive)
    {
      sent := sent + [FormatStrForWrite(text)];
    }

    /** stop: end the receive loop, then say goodbye. */
    method Stop()
      modifies this
      ensures !alive && sent == old(sent) + ["CLOSE\n"]
      ensures newPoses == old(newPoses) && backBuffer == old(backBuffer)
    {
      alive := false;
      sent := sent + ["CLOSE\n"];
    }

    /**
     * _handlePacket: while alive, a packet without listed letters is cut
     * into poses by the layout; they replace the poses exactly when every
     * pose got its full size.
     */
    method HandlePacket(packet: string) returns (ok: bool)
      modifies this
      ensures ok <==> alive && AcceptsLayout(packet, eps)
      ensures ok ==> newPoses == PacketPoses(packet, eps)
      ensures !ok ==> newPoses == old(newPoses)
      ensures backBuffer == old(backBuffer) && alive == old(alive) && sent == old(sent)
    {
      if alive && !SharesCharacters(Lower(packet), Letters) {
        var poses := PacketPoses(packet, eps);
        var shape := GetPosesShape(poses);
        if shape != eps {
          return false;
        }
        newPoses := poses;
        return true;
      }
      return false;
    }

    /** run: the same loop as the flat receiver's, with the layout's packet handling. */
    method Run(events: seq<RecvEvent>) returns (used: nat, packets: seq<string>)
      requires Valid()
      modifies this
      ensures Valid() && !alive && used <= |events| && sent == old(sent)
      ensures old(alive) ==> (packets, backBuffer) == Frames(old(backBuffer) + DataOf(events[..used]), NewLine)
      ensures old(alive) ==> newPoses == LayoutPosesAfter(old(newPoses), eps, packets)
      ensures old(alive) ==> AllKeepReceiving(events, used - 1)
      ensures old(alive) ==> used == |events| || (used > 0 && !KeepsReceiving(events[used - 1]))
      ensures !old(alive) ==> used == 0 && packets == [] && backBuffer == old(backBuffer) && newPoses == old(newPoses)
    {
      if !alive {
        return 0, [];
      }
      used, packets := ReceiveAll(events);
      alive := false;
    }

    method ReceiveAll(events: seq<RecvEvent>) returns (used: nat, packets: seq<string>)
      requires alive && Valid()
      modifies this
      ensures Valid() && used <= |events| && sent == old(sent)
      ensures (packets, backBuffer) == Frames(old(backBuffer) + DataOf(events[..used]), NewLine)
      ensures newPoses == LayoutPosesAfter(old(newPoses), eps, packets)
      ensures AllKeepReceiving(events, used - 1)
      ensures used == |events| || (used > 0 && !KeepsReceiving(events[used - 1]))
    {
      used := 0;
      packets := [];
      ghost var stream := backBuffer;
      ghost var poses := newPoses;
      FramesDone(backBuffer, NewLine);
      assert events[..0] == [];
      AppendEmpty(stream);
      while used < |events|
        invariant alive && used <= |events| && Valid() && sent == old(sent)
        invariant (packets, backBuffer) == Frames(stream + DataOf(events[..used]), NewLine)
        invariant newPoses == LayoutPosesAfter(poses, eps, packets)
        invariant AllKeepReceiving(events, used)
        decreases |events| - used
      {
        var goOn;
        packets, goOn := Receive(stream + DataOf(events[..used]), poses, packets, events[used]);
        ReceivedOneMore(stream, events, used);
        used := used + 1;
        if !goOn {
          return;
        }
      }
    }

    method Receive(ghost stream: string, ghost start: seq<seq<real>>, done: seq<string>, event: RecvEvent)
      returns (packets: seq<string>, goOn: bool)
      requires alive && (done, backBuffer) == Frames(stream, NewLine) && newPoses == LayoutPosesAfter(start, eps, done)
      modifies this
      ensures Valid() && alive && sent == old(sent) && goOn == KeepsReceiving(event)
      ensures (packets, backBuffer) == Frames(stream + Chunk(event), NewLine)
      ensures newPoses == LayoutPosesAfter(start, eps, packets)
    {
      FramesAppend(stream, Chunk(event), NewLine);
      match event
      case Timeout =>
        assert backBuffer + [] == backBuffer && stream + [] == stream;
        FramesDone(backBuffer, NewLine);
        packets, goOn := done, true;
      case Failure =>
        assert backBuffer + [] == backBuffer && stream + [] == stream;
        FramesDone(backBuffer, NewLine);
        packets, goOn := done, false;
      case Data(data) =>
        backBuffer := backBuffer + data;
        if |data| == 0 {
          assert stream + [] == stream;
          FramesDone(backBuffer, NewLine);
          return done, false;
        }
        packets := TakePackets(start, done);
        goOn := true;
    }

    method TakePackets(ghost start: seq<seq<real>>, done: seq<string>) returns (packets: seq<string>)
      requires alive && newPoses == LayoutPosesAfter(start, eps, done)
      modifies this
      ensures Valid() && alive && sent == old(sent)
      ensures (packets, backBuffer) == (done + Frames(old(backBuffer), NewLine).0, Frames(old(backBuffer), NewLine).1)
      ensures newPoses == LayoutPosesAfter(start, eps, packets)
    {
      ghost var all := Frames(backBuffer, NewLine);
      var handled: seq<string> := [];
      AppendEmpty(done);
      while Contains(backBuffer, NewLine)
        invariant alive && sent == old(sent)
        invariant handled + Frames(backBuffer, NewLine).0 == all.0 && Frames(backBuffer, NewLine).1 == all.1
        invariant newPoses == LayoutPosesAfter(start, eps, done + handled)
        decreases |backBuffer|
      {
        var split := SplitOnce(backBuffer, NewLine).value;
        FramesStep(backBuffer, NewLine);
        ghost var before := newPoses;
        var _ := HandlePacket(split.0);
        assert newPoses == if AcceptsLayout(split.0, eps) then PacketPoses(split.0, eps) else before;
        LayoutPosesAfterStep(start, eps, done + handled, split.0);
        AppendAssoc(done, handled, [split.0]);
        AppendAssoc(handled, [split.0], Frames(split.1, NewLine).0);
        handled := handled + [split.0];
        backBuffer := split.1;
      }
      FramesDone(backBuffer, NewLine);
      AppendEmpty(handled);
      packets := done + handled;
    }
  }
}
