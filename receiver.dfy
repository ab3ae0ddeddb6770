/**
 * The C++ pose receiver (driver/src/ref/receiver.h): a thread that reads
 * the socket into a 2048-byte buffer until a message end ('\0' or '\n'),
 * cuts the message off the front of the buffer and, when it holds exactly
 * `eps` numbers, makes them the new pose.
 */
module Receiver {
  import opened Wrappers
  import opened Text
  import opened Numbers
  import opened SockUtil
  import opened Framing

  /** What one recv call gave: some bytes (none when the peer has closed), or -1. */
  datatype RecvCall = Got(bytes: seq<char>) | Failed

  /**
   * How receive_till_zero ends: with the length of a complete message
   * (terminator included), with -1 after a failed recv, or, where the source
   * would wait or spin forever, with Starved (no more recv results in the
   * model) or Stuck (the buffer is full without a terminator: the source
   * keeps calling recv for 0 bytes).
   */
  datatype Received = Message(length: nat) | RecvFailed | Starved | Stuck

  predicate IsEnd(c: char)
  {
    c == '\0' || c == '\n'
  }

  /** A message's text holds no message end. */
  predicate NoEndIn(text: seq<char>)
  {
    forall j :: 0 <= j < |text| ==> !IsEnd(text[j])
  }

  /** Every byte the recv calls deliver, in order. */
  function Flatten(calls: seq<RecvCall>): seq<char>
  {
    if calls == [] then []
    else (match calls[0] case Got(b) => b case Failed => []) + Flatten(calls[1..])
  }

  function Measure(calls: seq<RecvCall>): nat
  {
    |Flatten(calls)| + |calls|
  }

  /** The first message end in `s`. */
  function FirstEnd(s: seq<char>, from: nat): (r: Option<nat>)
    requires from <= |s|
    ensures r.Some? ==> from <= r.value < |s| && IsEnd(s[r.value])
    ensures r.Some? ==> forall j :: from <= j < r.value ==> !IsEnd(s[j])
    ensures r.None? ==> forall j :: from <= j < |s| ==> !IsEnd(s[j])
    decreases |s| - from
  {
    if from == |s| then None
    else if IsEnd(s[from]) then Some(from)
    else FirstEnd(s, from + 1)
  }

  /** How many of the bytes `b` a recv into content of length `len` with room `max` takes. */
  function Take(len: nat, max: nat, b: seq<char>): (n: nat)
    requires len <= max
    ensures n <= |b| && len + n <= max
    ensures n == |b| || len + n == max
  {
    if len + |b| <= max then |b| else max - len
  }

  /** The recv results still to come once `take` bytes of `b` have been taken: the rest of `b` waits for the next call. */
  function Pending(b: seq<char>, take: nat, later: seq<RecvCall>): seq<RecvCall>
  {
    if take < |b| then [Got(b[take..])] + later else later
  }

  lemma PendingFlatten(b: seq<char>, take: nat, later: seq<RecvCall>)
    requires take <= |b|
    ensures Flatten(Pending(b, take, later)) == b[take..] + Flatten(later)
    ensures |Pending(b, take, later)| <= |later| + 1
    ensures Flatten([Got(b)] + later) == b + Flatten(later)
    ensures take > 0 || take == |b| ==> Measure(Pending(b, take, later)) < Measure([Got(b)] + later)
  {
    assert ([Got(b)] + later)[1..] == later;
    if take < |b| {
      assert Pending(b, take, later)[1..] == later;
    }
  }

  /**
   * What receive_till_zero does to buffer content `content` with room for
   * `max` bytes, given the results of the recv calls it will make: the
   * outcome, the buffer content afterwards and the recv results not used.
   * A recv asked for fewer bytes than the peer has sent returns only those;
   * the others wait for the next call (ReceiveSpecFacts states what it means).
   */
  function ReceiveSpec(content: seq<char>, max: nat, calls: seq<RecvCall>): (r: (Received, seq<char>, seq<RecvCall>))
    requires |content| <= max
    ensures |content| <= |r.1| <= max
    decreases Measure(calls)
  {
    match FirstEnd(content, 0)
    case Some(i) => (Message(i + 1), content, calls)
    case None =>
      if calls == [] then (Starved, content, calls)
      else if |content| == max then (Stuck, content, calls)
      else match calls[0]
        case Failed => (RecvFailed, content, calls[1..])
        case Got(b) =>
          var take := Take(|content|, max, b);
          assert calls == [Got(b)] + calls[1..];
          PendingFlatten(b, take, calls[1..]);
          ReceiveSpec(content + b[..take], max, Pending(b, take, calls[1..]))
  }

  /**
   * receive_till_zero keeps what was buffered, appends exactly the bytes
   * recv delivered (the rest stay pending) and uses no more recv results
   * than it is given.
   */
  lemma {:induction false} ReceiveKeeps(content: seq<char>, max: nat, calls: seq<RecvCall>)
    requires |content| <= max
    ensures var r := ReceiveSpec(content, max, calls);
      r.1[..|content|] == content &&
      Flatten(calls) == r.1[|content|..] + Flatten(r.2) &&
      |r.2| <= |calls|
    decreases Measure(calls)
  {
    var r := ReceiveSpec(content, max, calls);
    if FirstEnd(content, 0).None? && calls != [] && |content| < max {
      match calls[0]
      case Failed =>
        assert calls == [Failed] + calls[1..];
        assert Flatten(calls) == Flatten(calls[1..]);
        assert r.1 == content;
      case Got(b) =>
        var take := Take(|content|, max, b);
        var pending := Pending(b, take, calls[1..]);
        assert calls == [Got(b)] + calls[1..];
        PendingFlatten(b, take, calls[1..]);
        var c := content + b[..take];
        ReceiveKeeps(c, max, pending);
        assert r == ReceiveSpec(c, max, pending);
        FeedKeeps(content, b[..take], r.1, b, take, Flatten(calls[1..]), Flatten(pending), Flatten(r.2));
    }
  }

  /** The sequence algebra of one recv step of ReceiveKeeps. */
  lemma FeedKeeps(content: seq<char>, got: seq<char>, after: seq<char>, b: seq<char>, take: nat,
                  later: seq<char>, pending: seq<char>, left: seq<char>)
    requires take <= |b| && got == b[..take]
    requires |content + got| <= |after| && after[..|content + got|] == content + got
    requires pending == b[take..] + later
    requires pending == after[|content + got|..] + left
    ensures after[..|content|] == content
    ensures b + later == after[|content|..] + left
  {
    var c := content + got;
    assert after[..|content|] == after[..|c|][..|content|];
    assert after[|content|..] == got + after[|c|..] by {
      assert after[|content|..|c|] == got;
    }
    calc {
      b + later;
      { assert b == got + b[take..]; }
      got + (b[take..] + later);
      got + (after[|c|..] + left);
      (got + after[|c|..]) + left;
    }
  }

  /**
   * receive_till_zero reports a message length only at the first message
   * end of the buffer; otherwise the buffer holds none, and it is full when
   * the model says Stuck. A failed recv adds nothing.
   */
  lemma ReceiveOutcome(content: seq<char>, max: nat, calls: seq<RecvCall>)
    requires |content| <= max
    ensures var r := ReceiveSpec(content, max, calls);
      (r.0.Message? ==>
        0 < r.0.length <= |r.1| && IsEnd(r.1[r.0.length - 1]) &&
        forall j :: 0 <= j < r.0.length - 1 ==> !IsEnd(r.1[j])) &&
      (!r.0.Message? ==> forall j :: 0 <= j < |r.1| ==> !IsEnd(r.1[j])) &&
      (r.0 == Stuck ==> |r.1| == max)
  {
    OutcomeByInduction(content, max, calls);
  }

  /** The outcome ReceiveOutcome states, for a result `r` of ReceiveSpec with room `max`. */
  ghost predicate Reported(max: nat, r: (Received, seq<char>, seq<RecvCall>))
  {
    (r.0.Message? ==>
      0 < r.0.length <= |r.1| && IsEnd(r.1[r.0.length - 1]) &&
      forall j :: 0 <= j < r.0.length - 1 ==> !IsEnd(r.1[j])) &&
    (!r.0.Message? ==> forall j :: 0 <= j < |r.1| ==> !IsEnd(r.1[j])) &&
    (r.0 == Stuck ==> |r.1| == max)
  }

  lemma {:induction false} OutcomeByInduction(content: seq<char>, max: nat, calls: seq<RecvCall>)
    requires |content| <= max
    ensures Reported(max, ReceiveSpec(content, max, calls))
    decreases Measure(calls)
  {
    if FirstEnd(content, 0).None? && calls != [] && |content| < max && calls[0].Got? {
      var b := calls[0].bytes;
      var take := Take(|content|, max, b);
      var pending := Pending(b, take, calls[1..]);
      assert calls == [Got(b)] + calls[1..];
      PendingFlatten(b, take, calls[1..]);
      OutcomeByInduction(content + b[..take], max, pending);
      assert ReceiveSpec(content, max, calls) == ReceiveSpec(content + b[..take], max, pending);
    }
  }

  /**
   * What a reported message gives the receiver thread: a packet without a
   * message end in front of its terminator, and progress, since the packet
   * and its terminator leave the buffer.
   */
  lemma MessageConsumes(content: seq<char>, max: nat, calls: seq<RecvCall>)
    requires |content| <= max
    ensures var r := ReceiveSpec(content, max, calls);
      r.0.Message? ==> 0 < r.0.length <= |r.1| && NoEndIn(r.1[..r.0.length - 1])
    ensures var r := ReceiveSpec(content, max, calls);
      r.0.Message? ==> Measure(r.2) + (|r.1| - r.0.length) < Measure(calls) + |content|
  {
    ReceiveKeeps(content, max, calls);
    ReceiveOutcome(content, max, calls);
    var r := ReceiveSpec(content, max, calls);
    if r.0.Message? {
      assert |Flatten(calls)| == |r.1| - |content| + |Flatten(r.2)|;
    }
  }

  /**
   * The texts the receiver thread cuts from buffered bytes `content` and
   * the recv results `calls`: one receive_till_zero after another, each
   * reported message giving the text in front of its end byte and leaving
   * the bytes behind it buffered, until a receive reports anything but a
   * message.
   */
  function ThreadPackets(content: seq<char>, max: nat, calls: seq<RecvCall>): (r: seq<string>)
    requires |content| <= max
    ensures forall k :: 0 <= k < |r| ==> NoEndIn(r[k])
    decreases Measure(calls) + |content|
  {
    MessageConsumes(content, max, calls);
    var m := ReceiveSpec(content, max, calls);
    if m.0.Message? then [m.1[..m.0.length - 1]] + ThreadPackets(m.1[m.0.length..], max, m.2) else []
  }

  /** The end bytes that close the texts of ThreadPackets, one per text. */
  function ThreadEnds(content: seq<char>, max: nat, calls: seq<RecvCall>): (r: seq<char>)
    requires |content| <= max
    ensures |r| == |ThreadPackets(content, max, calls)|
    ensures forall k :: 0 <= k < |r| ==> IsEnd(r[k])
    decreases Measure(calls) + |content|
  {
    MessageConsumes(content, max, calls);
    ReceiveOutcome(content, max, calls);
    var m := ReceiveSpec(content, max, calls);
    if m.0.Message? then [m.1[m.0.length - 1]] + ThreadEnds(m.1[m.0.length..], max, m.2) else []
  }

  /** Texts each followed by its end byte, one after the other. */
  function Terminated(texts: seq<string>, ends: seq<char>): seq<char>
    requires |ends| == |texts|
  {
    if |texts| == 0 then [] else texts[0] + [ends[0]] + Terminated(texts[1..], ends[1..])
  }

  /**
   * The thread invents nothing and skips nothing: its texts, each closed by
   * its end byte, are the front of the stream made of the buffered bytes
   * and everything the recv calls deliver.
   */
  lemma {:induction false} ThreadPacketsPrefix(content: seq<char>, max: nat, calls: seq<RecvCall>)
    requires |content| <= max
    ensures Terminated(ThreadPackets(content, max, calls), ThreadEnds(content, max, calls)) <= content + Flatten(calls)
    decreases Measure(calls) + |content|
  {
    MessageConsumes(content, max, calls);
    var m := ReceiveSpec(content, max, calls);
    if m.0.Message? {
      var after := m.1[m.0.length..];
      var front := m.1[..m.0.length - 1] + [m.1[m.0.length - 1]];
      ThreadPacketsPrefix(after, max, m.2);
      StreamAtMessage(content, max, calls);
      ThreadUnfold(content, max, calls);
      PrefixInFront(front, Terminated(ThreadPackets(after, max, m.2), ThreadEnds(after, max, m.2)), after + Flatten(m.2));
    }
  }

  /** At a reported message the stream is the message, end byte included, then what stays buffered, then what is still to come. */
  lemma StreamAtMessage(content: seq<char>, max: nat, calls: seq<RecvCall>)
    requires |content| <= max
    ensures var m := ReceiveSpec(content, max, calls);
      m.0.Message? ==> (0 < m.0.length <= |m.1| &&
        content + Flatten(calls) == (m.1[..m.0.length - 1] + [m.1[m.0.length - 1]]) + (m.1[m.0.length..] + Flatten(m.2)))
  {
    MessageConsumes(content, max, calls);
    ReceiveKeeps(content, max, calls);
    var m := ReceiveSpec(content, max, calls);
    if m.0.Message? {
      Regroup(content, Flatten(calls), m.1, Flatten(m.2), m.0.length);
    }
  }

  /** Buffered bytes `c` in front of a stream `f` that the buffer `b` and the rest `g` make up, cut at `len`. */
  lemma Regroup<T>(c: seq<T>, f: seq<T>, b: seq<T>, g: seq<T>, len: nat)
    requires |c| <= |b| && 0 < len <= |b|
    requires b[..|c|] == c && f == b[|c|..] + g
    ensures c + f == (b[..len - 1] + [b[len - 1]]) + (b[len..] + g)
  {
    calc {
      c + f;
      b[..|c|] + (b[|c|..] + g);
      { assert b[..|c|] + b[|c|..] == b; }
      b + g;
      { assert b == (b[..len - 1] + [b[len - 1]]) + b[len..]; }
      (b[..len - 1] + [b[len - 1]]) + (b[len..] + g);
    }
  }

  /** One turn of ThreadPackets and ThreadEnds at a reported message. */
  lemma ThreadUnfold(content: seq<char>, max: nat, calls: seq<RecvCall>)
    requires |content| <= max
    ensures var m := ReceiveSpec(content, max, calls);
      m.0.Message? ==> (0 < m.0.length <= |m.1| &&
        Terminated(ThreadPackets(content, max, calls), ThreadEnds(content, max, calls)) ==
        (m.1[..m.0.length - 1] + [m.1[m.0.length - 1]]) +
        Terminated(ThreadPackets(m.1[m.0.length..], max, m.2), ThreadEnds(m.1[m.0.length..], max, m.2)))
  {
    MessageConsumes(content, max, calls);
    var m := ReceiveSpec(content, max, calls);
    if m.0.Message? {
      var ps, es := ThreadPackets(content, max, calls), ThreadEnds(content, max, calls);
      assert ps[1..] == ThreadPackets(m.1[m.0.length..], max, m.2);
      assert es[1..] == ThreadEnds(m.1[m.0.length..], max, m.2);
    }
  }

  /** A prefix stays a prefix behind a common front. */
  lemma PrefixInFront<T>(front: seq<T>, a: seq<T>, b: seq<T>)
    requires a <= b
    ensures front + a <= front + b
  {
    assert (front + b)[..|front + a|] == front + b[..|a|];
  }

  /**
   * One turn of the receiver thread's loop: receive until a message end,
   * take the text before it as the packet and shift the rest of the buffer
   * to its front. No packet when receive_till_zero reports anything but a
   * message; each packet consumes buffered or received bytes.
   */
  method NextPacket(buf: array<char>, numbytes: nat, max: nat, calls: seq<RecvCall>)
    returns (packet: Option<string>, newNumbytes: nat, rest: seq<RecvCall>)
    requires numbytes <= max <= buf.Length
    modifies buf
    ensures var r := ReceiveSpec(old(buf[..numbytes]), max, calls);
      (packet.Some? <==> r.0.Message?) &&
      (packet.Some? ==> 0 < r.0.length <= |r.1| && packet.value == r.1[..r.0.length - 1])
    ensures packet.Some? ==> NoEndIn(packet.value)
    ensures packet.Some? ==> newNumbytes <= max && Measure(rest) + newNumbytes < Measure(calls) + numbytes
    ensures var r := ReceiveSpec(old(buf[..numbytes]), max, calls);
      packet.Some? ==> buf[..newNumbytes] == r.1[r.0.length..] && rest == r.2
  {
    MessageConsumes(buf[..numbytes], max, calls);
    var msglen, filled, rest' := ReceiveTillZero(buf, numbytes, max, calls);
    rest := rest';
    if !msglen.Message? {
      return None, numbytes, rest;
    }
    packet := Some(buf[..msglen.length - 1]);
    newNumbytes := RemoveMessageFromBuffer(buf, filled, msglen.length);
  }

  /**
   * receive_till_zero: scan the buffered bytes for a message end, resuming
   * where the previous scan stopped, and recv more bytes behind them until
   * one arrives. The byte count, a reference in the source, is returned.
   */
  method ReceiveTillZero(buf: array<char>, numbytes: nat, maxPacketSize: nat, calls: seq<RecvCall>)
    returns (result: Received, newNumbytes: nat, rest: seq<RecvCall>)
    requires numbytes <= maxPacketSize <= buf.Length
    modifies buf
    ensures newNumbytes <= maxPacketSize
    ensures (result, buf[..newNumbytes], rest) == ReceiveSpec(old(buf[..numbytes]), maxPacketSize, calls)
    ensures forall j :: newNumbytes <= j < buf.Length ==> buf[j] == old(buf[j])
  {
    var i := 0;
    newNumbytes := numbytes;
    rest := calls;
    while true
      invariant 0 <= i <= newNumbytes <= maxPacketSize
      invariant forall j :: 0 <= j < i ==> !IsEnd(buf[j])
      invariant ReceiveSpec(buf[..newNumbytes], maxPacketSize, rest) == ReceiveSpec(old(buf[..numbytes]), maxPacketSize, calls)
      invariant forall j :: newNumbytes <= j < buf.Length ==> buf[j] == old(buf[j])
      decreases Measure(rest), maxPacketSize - newNumbytes
    {
      var found;
      i, found := ScanForEnd(buf, i, newNumbytes);
      if found {
        FirstEndAt(buf[..newNumbytes], i, maxPacketSize, rest);
        result := Message(i + 1);
        return;
      }
      NoEnd(buf[..newNumbytes], maxPacketSize, rest);
      if rest == [] {
        result := Starved;
        return;
      }
      if newNumbytes == maxPacketSize {
        result := Stuck;
        return;
      }
      match rest[0]
      case Failed =>
        result := RecvFailed;
        rest := rest[1..];
        return;
      case Got(_) =>
        newNumbytes, rest := RecvInto(buf, newNumbytes, maxPacketSize, rest);
    }
  }

  /**
   * The inner loop of receive_till_zero: look for a message end from
   * position i on, up to the n buffered bytes.
   */
  method ScanForEnd(buf: array<char>, i: nat, n: nat) returns (j: nat, found: bool)
    requires i <= n <= buf.Length && forall k :: 0 <= k < i ==> !IsEnd(buf[k])
    ensures i <= j <= n && forall k :: 0 <= k < j ==> !IsEnd(buf[k])
    ensures found ==> j < n && IsEnd(buf[j])
    ensures !found ==> j == n
  {
    j := i;
    while j < n
      invariant i <= j <= n
      invariant forall k :: 0 <= k < j ==> !IsEnd(buf[k])
    {
      if IsEnd(buf[j]) {
        return j, true;
      }
      j := j + 1;
    }
    return j, false;
  }

  /** One recv into the free part of the buffer, as much as fits; what does not fit stays pending. */
  method RecvInto(buf: array<char>, n: nat, max: nat, calls: seq<RecvCall>) returns (n': nat, rest: seq<RecvCall>)
    requires n < max <= buf.Length && calls != [] && calls[0].Got? && FirstEnd(buf[..n], 0).None?
    modifies buf
    ensures n <= n' <= max && Measure(rest) < Measure(calls)
    ensures ReceiveSpec(buf[..n'], max, rest) == ReceiveSpec(old(buf[..n]), max, calls)
    ensures forall j :: 0 <= j < n ==> buf[j] == old(buf[j])
    ensures forall j :: n' <= j < buf.Length ==> buf[j] == old(buf[j])
  {
    var b := calls[0].bytes;
    var take := Take(n, max, b);
    ReceiveSpecStep(buf[..n], max, calls);
    PendingFlatten(b, take, calls[1..]);
    assert calls == [Got(b)] + calls[1..];
    CopyIn(buf, n, b, take);
    n' := n + take;
    rest := Pending(b, take, calls[1..]);
  }

  /** What recv does with the buffer: the bytes land behind the `n` bytes already there. */
  method CopyIn(buf: array<char>, n: nat, b: seq<char>, take: nat)
    requires take <= |b| && n + take <= buf.Length
    modifies buf
    ensures buf[..n + take] == old(buf[..n]) + b[..take]
    ensures forall j :: 0 <= j < n ==> buf[j] == old(buf[j])
    ensures forall j :: n + take <= j < buf.Length ==> buf[j] == old(buf[j])
  {
    var k := 0;
    while k < take
      invariant 0 <= k <= take
      invariant forall j :: 0 <= j < n ==> buf[j] == old(buf[j])
      invariant forall j :: n <= j < n + k ==> buf[j] == b[j - n]
      invariant forall j :: n + k <= j < buf.Length ==> buf[j] == old(buf[j])
    {
      buf[n + k] := b[k];
      k := k + 1;
    }
    assert forall j :: 0 <= j < n + take ==> buf[..n + take][j] == (old(buf[..n]) + b[..take])[j];
  }

  /** One recv step of receive_till_zero, unfolded. */
  lemma ReceiveSpecStep(content: seq<char>, max: nat, calls: seq<RecvCall>)
    requires |content| < max && FirstEnd(content, 0).None? && calls != [] && calls[0].Got?
    ensures var b := calls[0].bytes; var take := Take(|content|, max, b);
      ReceiveSpec(content, max, calls) == ReceiveSpec(content + b[..take], max, Pending(b, take, calls[1..]))
  {
  }

  lemma FirstEndAt(s: seq<char>, i: nat, max: nat, calls: seq<RecvCall>)
    requires i < |s| <= max && IsEnd(s[i]) && forall j :: 0 <= j < i ==> !IsEnd(s[j])
    ensures FirstEnd(s, 0) == Some(i)
    ensures ReceiveSpec(s, max, calls) == (Message(i + 1), s, calls)
  {
    var r := FirstEnd(s, 0);
    assert r.Some? && r.value == i;
  }

  lemma NoEnd(s: seq<char>, max: nat, calls: seq<RecvCall>)
    requires |s| <= max && forall j :: 0 <= j < |s| ==> !IsEnd(s[j])
    ensures FirstEnd(s, 0) == None
    ensures calls == [] ==> ReceiveSpec(s, max, calls) == (Starved, s, calls)
    ensures calls != [] && |s| == max ==> ReceiveSpec(s, max, calls) == (Stuck, s, calls)
    ensures calls != [] && |s| < max && calls[0] == Failed ==> ReceiveSpec(s, max, calls) == (RecvFailed, s, calls[1..])
  {
  }

  /** split_string followed by split_to_double: the numbers a packet carries, or {0, 0} if one does not read. */
  function ParsePacket(packet: string): seq<real>
  {
    SplitToNumber(SplitWhitespace(packet))
  }

  /**
   * The error value of split_to_double has two elements, so with eps == 2
   * an unreadable packet passes the size check as the pose (0, 0).
   */
  lemma UnreadablePacketIsTwoZeros(packet: string)
    requires !AllRead(SplitWhitespace(packet))
    ensures ParsePacket(packet) == [0.0, 0.0] && |ParsePacket(packet)| == 2
  {
  }

  /** A packet of written naturals separated by spaces parses to their values. */
  lemma ParseWrittenPacket(ns: seq<nat>)
    requires |ns| > 0
    ensures ParsePacket(Join(Written(ns), " ")) == seq(|ns|, k requires 0 <= k < |ns| => ns[k] as real)
  {
    SplitToNumberOfWritten(ns);
  }

  /** The pose after handling `packets` one after the other, starting from `pose`. */
  function PoseAfter(pose: seq<real>, eps: int, packets: seq<string>): seq<real>
    decreases |packets|
  {
    if packets == [] then pose
    else PoseAfter(if |ParsePacket(packets[0])| == eps then ParsePacket(packets[0]) else pose, eps, packets[1..])
  }

  /**
   * The receiver of one pose stream. The socket is represented by whether it
   * is still open and by the messages sent on it; connecting, and the
   * exceptions a failed connection throws, are not part of this model.
   */
  class DriverReceiver {
    const eps: int
    var newPose: seq<real>
    var threadKeepAlive: bool
    var socketOpen: bool
    var sent: seq<string>

    /** The pose always has the expected size (when that size is not negative). */
    predicate Valid()
      reads this
    {
      eps >= 0 ==> |newPose| == eps
    }

    /** The initial pose is eps zeros; the thread is not running yet. */
    constructor(expectedPoseSize: int)
      ensures eps == expectedPoseSize
      ensures |newPose| == (if eps > 0 then eps else 0)
      ensures forall k :: 0 <= k < |newPose| ==> newPose[k] == 0.0
      ensures !threadKeepAlive && socketOpen && sent == []
      ensures Valid()
    {
      eps := expectedPoseSize;
      var pose := [];
      var i := 0;
      while i < expectedPoseSize
        invariant 0 <= i <= (if expectedPoseSize > 0 then expectedPoseSize else 0)
        invariant |pose| == i && forall k :: 0 <= k < i ==> pose[k] == 0.0
      {
        pose := pose + [0.0];
        i := i + 1;
      }
      newPose := pose;
      threadKeepAlive := false;
      socketOpen := true;
      sent := [];
    }

    /** start: let the thread run and greet the server; on a closed socket the greeting goes nowhere. */
    method Start()
      modifies this
      ensures threadKeepAlive && sent == old(sent) + (if old(socketOpen) then ["hello\n"] else [])
      ensures newPose == old(newPose) && socketOpen == old(socketOpen)
    {
      threadKeepAlive := true;
      if socketOpen {
        sent := sent + ["hello\n"];
      }
    }

    /** close: say goodbye on an open socket and forget it. */
    method Close()
      modifies this
      ensures !socketOpen
      ensures sent == old(sent) + (if old(socketOpen) then ["CLOSE\n"] else [])
      ensures newPose == old(newPose) && threadKeepAlive == old(threadKeepAlive)
    {
      if socketOpen {
        sent := sent + ["CLOSE\n"];
      }
      socketOpen := false;
    }

    /** stop: close, then tell the thread to end; stopping twice says goodbye once. */
    method Stop()
      modifies this
      ensures !socketOpen && !threadKeepAlive
      ensures sent == old(sent) + (if old(socketOpen) then ["CLOSE\n"] else [])
      ensures newPose == old(newPose)
    {
      Close();
      threadKeepAlive := false;
    }

    /** get_pose: the last accepted pose. */
    method GetPose() returns (pose: seq<real>)
      requires Valid()
      ensures pose == newPose && (eps >= 0 ==> |pose| == eps)
    {
      pose := newPose;
    }

    /** _handle: replace the pose and return -1 only when the packet holds eps numbers; otherwise return how many it holds. */
    method Handle(packet: string) returns (r: int)
      requires Valid()
      modifies this
      ensures Valid()
      ensures |ParsePacket(packet)| == eps ==> newPose == ParsePacket(packet) && r == -1
      ensures |ParsePacket(packet)| != eps ==> newPose == old(newPose) && r == |ParsePacket(packet)|
      ensures threadKeepAlive == old(threadKeepAlive) && socketOpen == old(socketOpen) && sent == old(sent)
    {
      var temp := ParsePacket(packet);
      if |temp| == eps {
        newPose := temp;
        return -1;
      }
      return |temp|;
    }

    /**
     * my_thread: while it is kept alive, receive a message into the 2048-byte
     * buffer, take the text in front of its end byte, remove the message from
     * the buffer and handle the text; a failed receive ends it. The handled
     * texts are returned. Nothing else stops the thread in this model, so it
     * runs until the recv results give out.
     */
    method RunThread(calls: seq<RecvCall>) returns (packets: seq<string>)
      requires Valid()
      modifies this
      ensures Valid() && !threadKeepAlive
      ensures packets == if old(threadKeepAlive) then ThreadPackets([], 2048, calls) else []
      ensures newPose == PoseAfter(old(newPose), eps, packets)
      ensures socketOpen == old(socketOpen) && sent == old(sent)
    {
      var mybuff := new char[2048];
      var numbit: nat := 0;
      var rest := calls;
      packets := [];
      while threadKeepAlive
        invariant Valid() && numbit <= mybuff.Length == 2048
        invariant threadKeepAlive == old(threadKeepAlive)
        invariant !threadKeepAlive ==> packets == []
        invariant threadKeepAlive ==> packets + ThreadPackets(mybuff[..numbit], 2048, rest) == ThreadPackets([], 2048, calls)
        invariant newPose == PoseAfter(old(newPose), eps, packets)
        invariant socketOpen == old(socketOpen) && sent == old(sent)
        decreases Measure(rest) + numbit
      {
        ghost var before := ThreadPackets(mybuff[..numbit], 2048, rest);
        var packet, numbit', rest' := NextPacket(mybuff, numbit, 2048, rest);
        if packet.None? {
          AppendEmpty(packets);
          break;
        }
        numbit, rest := numbit', rest';
        assert before == [packet.value] + ThreadPackets(mybuff[..numbit], 2048, rest);
        AppendAssoc(packets, [packet.value], ThreadPackets(mybuff[..numbit], 2048, rest));
        var _ := Handle(packet.value);
        PoseAfterAppend(old(newPose), eps, packets, packet.value);
        packets := packets + [packet.value];
      }
      threadKeepAlive := false;
    }
  }

  lemma {:induction false} PoseAfterAppend(pose: seq<real>, eps: int, packets: seq<string>, p: string)
    ensures PoseAfter(pose, eps, packets + [p]) ==
      if |ParsePacket(p)| == eps then ParsePacket(p) else PoseAfter(pose, eps, packets)
    decreases |packets|
  {
    if packets != [] {
      assert (packets + [p])[1..] == packets[1..] + [p];
      PoseAfterAppend(if |ParsePacket(packets[0])| == eps then ParsePacket(packets[0]) else pose, eps, packets[1..], p);
    } else {
      assert ([] + [p])[1..] == [];
    }
  }
}
