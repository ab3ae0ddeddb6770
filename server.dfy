/**
 * The relay server of virtualreality/server/server.py. Every connection
 * sends an id line first; the server records the connection with two
 * flags taken from the id and relays every later chunk to the other
 * recorded connections that share the sender's first flag or carry the
 * second one. One connection's handler is modelled at a time: the events,
 * and which writers fail, are inputs.
 */
module RelayServer {
  import opened Wrappers
  import opened Framing

  const DriverIds: seq<string> := ["hello"]
  const PoserIds: seq<string> := ["holla"]
  const Terminator: string := "\n"
  const CloseMessage: string := "CLOSE\n"

  /**
   * A connection record: peer address, writer, "id is a driver or poser
   * id", "id is a poser id", and the number n of its name "lol<n>".
   */
  datatype Conn = Conn(addr: int, writer: int, relayed: bool, poser: bool, tag: nat)

  /** What one reader.read gave: data (empty at end of stream), or an exception. */
  datatype ReadEvent = Read(data: string) | ReadFailed

  /** The first read does not split into exactly an id and a payload: the handler raises before recording anything. */
  datatype HandlerError = IdUnpackError

  /** The two flags of a record, from its id message. */
  function Flags(id: string): (r: (bool, bool))
    ensures r.1 ==> r.0
    ensures r.0 <==> id == "hello" || id == "holla"
    ensures r.1 <==> id == "holla"
  {
    (id in DriverIds || id in PoserIds, id in PoserIds)
  }

  /**
   * The first read split on the terminator and unpacked into the id and
   * the first payload; any other number of pieces fails the unpacking.
   */
  function SplitFirstRead(first: string): (r: Result<(string, string), HandlerError>)
    ensures r.Ok? ==> r.value.0 + Terminator + r.value.1 == first
    ensures r.Ok? ==> !Contains(r.value.0, Terminator) && !Contains(r.value.1, Terminator)
  {
    var pieces := SplitAll(first, Terminator);
    if |pieces| == 2 then
      assert Join(pieces, Terminator) == pieces[0] + Terminator + Join(pieces[1..], Terminator);
      Ok((pieces[0], pieces[1]))
    else Err(IdUnpackError)
  }

  /** An id line and a payload without newlines are read back as they were written. */
  lemma SplitFirstReadOfWritten(id: string, payload: string)
    requires !Contains(id, Terminator) && !Contains(payload, Terminator)
    ensures SplitFirstRead(id + Terminator + payload) == Ok((id, payload))
  {
    var pieces := [id, payload];
    assert BorderFree(Terminator);
    assert Join(pieces, Terminator) == id + Terminator + Join([payload], Terminator);
    SplitAllJoin(pieces, Terminator);
  }

  /** A first read without any newline cannot be unpacked. */
  lemma SplitFirstReadWithoutNewline(first: string)
    requires !Contains(first, Terminator)
    ensures SplitFirstRead(first).Err?
  {
  }

  /** send_to_all's test: never the sender itself, and only a peer with the same first flag or a poser. */
  predicate Eligible(i: Conn, me: Conn)
  {
    i != me && (i.relayed == me.relayed || i.poser)
  }

  /** The connections a broadcast from `me` is meant for, in registry order. */
  function Recipients(conz: seq<Conn>, me: Conn): (r: seq<Conn>)
    ensures forall k :: 0 <= k < |r| ==> r[k] in conz && Eligible(r[k], me)
    ensures forall i :: i in conz && Eligible(i, me) ==> i in r
  {
    if |conz| == 0 then []
    else (if Eligible(conz[0], me) then [conz[0]] else []) + Recipients(conz[1..], me)
  }

  /**
   * The connections a broadcast reaches: the recipients in order, up to
   * the first whose write fails; the failure ends the whole broadcast.
   * The flag says whether a write failed.
   */
  function Delivery(conz: seq<Conn>, me: Conn, broken: set<int>): (seq<Conn>, bool)
  {
    if |conz| == 0 then ([], false)
    else if !Eligible(conz[0], me) then Delivery(conz[1..], me, broken)
    else if conz[0].writer in broken then ([], true)
    else var rest := Delivery(conz[1..], me, broken); ([conz[0]] + rest.0, rest.1)
  }

  /**
   * A broadcast reaches a prefix of its recipients, all of them when no
   * write fails, and never the sender; it fails exactly when some
   * recipient's writer is broken.
   */
  lemma DeliveryIsPrefix(conz: seq<Conn>, me: Conn, broken: set<int>)
    ensures var d := Delivery(conz, me, broken); var rs := Recipients(conz, me);
      |d.0| <= |rs| && d.0 == rs[..|d.0|] &&
      (d.1 <==> exists k :: 0 <= k < |rs| && rs[k].writer in broken) &&
      (!d.1 ==> d.0 == rs) &&
      (d.1 ==> |d.0| < |rs| && rs[|d.0|].writer in broken) &&
      (forall k :: 0 <= k < |d.0| ==> d.0[k].writer !in broken)
  {
    DeliveryPrefixByInduction(conz, me, broken);
  }

  /** `d` is what a broadcast over the recipients `rs` achieves. */
  ghost predicate DeliveredPrefix(d: (seq<Conn>, bool), rs: seq<Conn>, broken: set<int>)
  {
    |d.0| <= |rs| && d.0 == rs[..|d.0|] &&
    (d.1 <==> exists k :: 0 <= k < |rs| && rs[k].writer in broken) &&
    (!d.1 ==> d.0 == rs) &&
    (d.1 ==> |d.0| < |rs| && rs[|d.0|].writer in broken) &&
    (forall k :: 0 <= k < |d.0| ==> d.0[k].writer !in broken)
  }

  lemma {:induction false} DeliveryPrefixByInduction(conz: seq<Conn>, me: Conn, broken: set<int>)
    ensures DeliveredPrefix(Delivery(conz, me, broken), Recipients(conz, me), broken)
    decreases |conz|
  {
    if |conz| == 0 {
      assert Delivery(conz, me, broken) == ([], false) && Recipients(conz, me) == [];
    } else {
      DeliveryPrefixByInduction(conz[1..], me, broken);
      DeliveryPrefixStep(conz, me, broken);
    }
  }

  lemma DeliveryPrefixStep(conz: seq<Conn>, me: Conn, broken: set<int>)
    requires |conz| > 0
    requires DeliveredPrefix(Delivery(conz[1..], me, broken), Recipients(conz[1..], me), broken)
    ensures DeliveredPrefix(Delivery(conz, me, broken), Recipients(conz, me), broken)
  {
    var c, d, rest := conz[0], Delivery(conz[1..], me, broken), Recipients(conz[1..], me);
    if !Eligible(c, me) {
      assert Delivery(conz, me, broken) == d && Recipients(conz, me) == rest;
    } else if c.writer in broken {
      assert Delivery(conz, me, broken) == ([], true) && Recipients(conz, me) == [c] + rest;
      PrefixBroken(c, rest, broken);
    } else {
      assert Delivery(conz, me, broken) == ([c] + d.0, d.1) && Recipients(conz, me) == [c] + rest;
      PrefixCons(c, d, rest, broken);
    }
  }

  /** A first recipient with a broken writer stops the broadcast before any write. */
  lemma PrefixBroken(c: Conn, rest: seq<Conn>, broken: set<int>)
    requires c.writer in broken
    ensures DeliveredPrefix(([], true), [c] + rest, broken)
  {
    assert ([c] + rest)[0] == c;
  }

  /** A first recipient that takes the write is followed by what the rest achieves. */
  lemma PrefixCons(c: Conn, d: (seq<Conn>, bool), rest: seq<Conn>, broken: set<int>)
    requires c.writer !in broken && DeliveredPrefix(d, rest, broken)
    ensures DeliveredPrefix(([c] + d.0, d.1), [c] + rest, broken)
  {
    var rs, e := [c] + rest, [c] + d.0;
    assert forall k :: 1 <= k < |rs| ==> rs[k] == rest[k - 1];
    assert forall k :: 1 <= k < |e| ==> e[k] == d.0[k - 1];
    assert e == rs[..|e|];
    if d.1 {
      var k :| 0 <= k < |rest| && rest[k].writer in broken;
      assert rs[k + 1].writer in broken;
    }
    if exists k :: 0 <= k < |rs| && rs[k].writer in broken {
      var k :| 0 <= k < |rs| && rs[k].writer in broken;
      assert k > 0 && rest[k - 1].writer in broken;
    }
  }

  /** The sender never hears its own message. */
  lemma NoEcho(conz: seq<Conn>, me: Conn, broken: set<int>)
    ensures me !in Delivery(conz, me, broken).0
  {
    DeliveryIsPrefix(conz, me, broken);
    var d := Delivery(conz, me, broken).0;
    var rs := Recipients(conz, me);
    forall k | 0 <= k < |d|
      ensures d[k] != me
    {
      assert d[k] == rs[k] && Eligible(rs[k], me);
    }
  }

  /** Every write one broadcast makes, in order. */
  function Writes(to: seq<Conn>, msg: string): (r: seq<(Conn, string)>)
    ensures |r| == |to| && forall k :: 0 <= k < |r| ==> r[k] == (to[k], msg)
  {
    seq(|to|, k requires 0 <= k < |to| => (to[k], msg))
  }

  /** One record further into the registry. */
  lemma DeliveryAt(conz: seq<Conn>, k: nat, me: Conn, broken: set<int>)
    requires k < |conz|
    ensures var rest := Delivery(conz[k + 1..], me, broken);
      Delivery(conz[k..], me, broken) ==
        if !Eligible(conz[k], me) then rest
        else if conz[k].writer in broken then ([], true)
        else ([conz[k]] + rest.0, rest.1)
  {
    assert conz[k..][1..] == conz[k + 1..];
  }

  lemma WritesAppend(to: seq<Conn>, c: Conn, msg: string)
    ensures Writes(to + [c], msg) == Writes(to, msg) + [(c, msg)]
  {
  }

  /** A chunk that ends the receive loop: end of stream, or one holding the close message. */
  predicate EndsLoop(data: string)
  {
    |data| == 0 || Contains(data, CloseMessage)
  }

  /** A read the loop relays and goes on after. */
  predicate Relayable(event: ReadEvent)
  {
    event.Read? && !EndsLoop(event.data)
  }

  /**
   * How many reads the loop relays: the reads before the first that fails
   * or ends the loop.
   */
  function RelayedCount(events: seq<ReadEvent>): (n: nat)
    ensures n <= |events|
    ensures forall j :: 0 <= j < n ==> Relayable(events[j])
    ensures n < |events| ==> !Relayable(events[n])
  {
    if |events| == 0 || !Relayable(events[0]) then 0
    else
      var rest := RelayedCount(events[1..]);
      assert forall j :: 1 <= j < rest + 1 ==> events[j] == events[1..][j - 1];
      1 + rest
  }

  /** The writes of relaying the first n reads from `me`, in order. */
  function Broadcasts(conz: seq<Conn>, me: Conn, broken: set<int>, events: seq<ReadEvent>, n: nat): seq<(Conn, string)>
    requires n <= RelayedCount(events)
  {
    if n == 0 then []
    else Broadcasts(conz, me, broken, events, n - 1) + Writes(Delivery(conz, me, broken).0, events[n - 1].data)
  }

  /**
   * Relaying n chunks makes one write per chunk and delivered connection,
   * each carrying one of the relayed chunks; the sender is never written to.
   */
  lemma {:induction false} BroadcastsShape(conz: seq<Conn>, me: Conn, broken: set<int>, events: seq<ReadEvent>, n: nat)
    requires n <= RelayedCount(events)
    ensures var b := Broadcasts(conz, me, broken, events, n); var to := Delivery(conz, me, broken).0;
      |b| == n * |to| &&
      forall w :: w in b ==> w.0 in to && w.0 != me && exists j :: 0 <= j < n && w.1 == events[j].data
  {
    var to := Delivery(conz, me, broken).0;
    NoEcho(conz, me, broken);
    if n > 0 {
      BroadcastsShape(conz, me, broken, events, n - 1);
      var prev := Broadcasts(conz, me, broken, events, n - 1);
      var b := Broadcasts(conz, me, broken, events, n);
      var last := Writes(to, events[n - 1].data);
      assert b == prev + last;
      assert |b| == n * |to| by {
        assert |b| == (n - 1) * |to| + |to|;
      }
      forall w | w in b
        ensures w.0 in to && w.0 != me && exists j :: 0 <= j < n && w.1 == events[j].data
      {
        if w in last {
          var t :| 0 <= t < |last| && last[t] == w;
          assert w.1 == events[n - 1].data;
        }
      }
    }
  }

  /** list.remove: drop the first record equal to x. */
  function RemoveFirst(conz: seq<Conn>, x: Conn): (r: seq<Conn>)
    requires x in conz
    ensures |r| == |conz| - 1
    ensures multiset(r) == multiset(conz) - multiset{x}
  {
    assert conz == [conz[0]] + conz[1..];
    if conz[0] == x then conz[1..]
    else [conz[0]] + RemoveFirst(conz[1..], x)
  }

  /** Adding a record that was not present and then removing it gives the registry back. */
  lemma {:induction false} RemoveAppended(conz: seq<Conn>, me: Conn)
    requires me !in conz
    ensures RemoveFirst(conz + [me], me) == conz
    decreases |conz|
  {
    var c := conz + [me];
    if |conz| == 0 {
      assert c == [me];
    } else {
      assert c[0] == conz[0] != me;
      assert c[1..] == conz[1..] + [me];
      RemoveAppended(conz[1..], me);
      assert RemoveFirst(c, me) == [conz[0]] + RemoveFirst(c[1..], me);
      assert conz == [conz[0]] + conz[1..];
    }
  }

  class Server {
    /** The connection registry. */
    var conz: seq<Conn>
    /** Every write made to a connection, in order. */
    var outbox: seq<(Conn, string)>
    /** The writers closed so far. */
    var closed: seq<int>

    constructor()
      ensures conz == [] && outbox == [] && closed == []
    {
      conz := [];
      outbox := [];
      closed := [];
    }

    /**
     * send_to_all: write the message to every eligible record in turn; a
     * write to a broken writer raises, which ends the broadcast and is
     * reported as a lost message.
     */
    method SendToAll(msg: string, me: Conn, broken: set<int>) returns (lost: bool)
      modifies this
      ensures outbox == old(outbox) + Writes(Delivery(conz, me, broken).0, msg)
      ensures lost == Delivery(conz, me, broken).1
      ensures conz == old(conz) && closed == old(closed)
    {
      var k := 0;
      ghost var done: seq<Conn> := [];
      assert conz[0..] == conz;
      assert [] + Delivery(conz, me, broken).0 == Delivery(conz, me, broken).0;
      assert outbox == old(outbox) + Writes([], msg);
      while k < |conz|
        invariant 0 <= k <= |conz| && conz == old(conz) && closed == old(closed)
        invariant Delivery(conz, me, broken) == (done + Delivery(conz[k..], me, broken).0, Delivery(conz[k..], me, broken).1)
        invariant outbox == old(outbox) + Writes(done, msg)
      {
        var i := conz[k];
        DeliveryAt(conz, k, me, broken);
        if Eligible(i, me) {
          if i.writer in broken {
            AppendEmpty(done);
            return true;
          }
          WritesAppend(done, i, msg);
          AppendAssoc(done, [i], Delivery(conz[k + 1..], me, broken).0);
          outbox := outbox + [(i, msg)];
          done := done + [i];
        }
        k := k + 1;
      }
      AppendEmpty(done);
      return false;
    }

    /**
     * __call__ for one connection: split the first read into the id and
     * the first payload, record the connection unless an equal record is
     * present, relay the payload when it is not empty, relay every chunk
     * until end of stream, the close message or a read failure, then drop
     * the record and close the writer. Returns the chunks relayed.
     */
    method Serve(addr: int, writer: int, first: string, events: seq<ReadEvent>, broken: set<int>)
      returns (r: Result<nat, HandlerError>)
      modifies this
      ensures SplitFirstRead(first).Err? ==> r.Err? && conz == old(conz) && outbox == old(outbox) && closed == old(closed)
      ensures SplitFirstRead(first).Ok? ==>
        var (id, payload) := SplitFirstRead(first).value;
        var me := Conn(addr, writer, Flags(id).0, Flags(id).1, |old(conz)|);
        var registered := if me in old(conz) then old(conz) else old(conz) + [me];
        r == Ok(RelayedCount(events)) &&
        outbox == old(outbox) + (if |payload| > 0 then Writes(Delivery(registered, me, broken).0, payload) else [])
          + Broadcasts(registered, me, broken, events, RelayedCount(events)) &&
        conz == RemoveFirst(registered, me) &&
        (me !in old(conz) ==> conz == old(conz)) &&
        closed == old(closed) + [writer]
    {
      var split := SplitFirstRead(first);
      if split.Err? {
        return Err(split.error);
      }
      var (id, payload) := split.value;
      var flags := Flags(id);
      var me := Conn(addr, writer, flags.0, flags.1, |conz|);
      if me !in conz {
        conz := conz + [me];
        RemoveAppended(old(conz), me);
      }
      ghost var registered := conz;
      ghost var payloadWrites := if |payload| > 0 then Writes(Delivery(registered, me, broken).0, payload) else [];
      if |payload| > 0 {
        var _ := SendToAll(payload, me, broken);
      } else {
        AppendEmpty(outbox);
      }
      assert outbox == old(outbox) + payloadWrites;
      var count := RelayLoop(me, events, broken);
      AppendAssoc(old(outbox), payloadWrites, Broadcasts(registered, me, broken, events, count));
      assert me in conz;
      conz := RemoveFirst(conz, me);
      closed := closed + [writer];
      return Ok(count);
    }

    /** The main receive loop of __call__: relay every chunk until one ends the loop or a read fails. */
    method RelayLoop(me: Conn, events: seq<ReadEvent>, broken: set<int>) returns (k: nat)
      modifies this
      ensures k == RelayedCount(events)
      ensures outbox == old(outbox) + Broadcasts(conz, me, broken, events, k)
      ensures conz == old(conz) && closed == old(closed)
    {
      k := 0;
      AppendEmpty(outbox);
      while k < |events|
        invariant k <= RelayedCount(events) && conz == old(conz) && closed == old(closed)
        invariant outbox == old(outbox) + Broadcasts(conz, me, broken, events, k)
      {
        var event := events[k];
        if event.ReadFailed? || EndsLoop(event.data) {
          break;
        }
        var _ := SendToAll(event.data, me, broken);
        AppendAssoc(old(outbox), Broadcasts(conz, me, broken, events, k), Writes(Delivery(conz, me, broken).0, event.data));
        k := k + 1;
      }
    }
  }
}
