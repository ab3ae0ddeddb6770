/**
 * The poser base class of virtualreality/templates/template_base.py: which
 * methods count as threads, the keep-alive triggers that stop them, the
 * receive loop that keeps the last "\t\r\n"-terminated server message, and
 * the two ways of registering a thread. Bytes are modelled as characters
 * holding the byte values; sockets and the event loop are inputs.
 */
module TemplateBase {
  import opened Wrappers
  import opened Framing
  import opened PoseUtil

  /** KeepAliveTrigger: whether the thread should go on, and how long it sleeps between passes. */
  datatype KeepAlive = KeepAlive(isAlive: bool, sleepDelay: real)

  /** The exceptions thread registration raises. */
  datatype RegisterError = ValueError | NameError(name: string)

  /** What register_member_thread did with a thread it let run. */
  datatype Registration = Registered | RunUnregistered

  /** What one reader.read gave: data, or an exception. */
  datatype ReadEvent = Got(data: string) | ReadFailed

  const Terminator: string := "\t\r\n"
  const IdMessage: string := "holla"
  const CloseMessage: string := "CLOSE"
  const BaseExceptions: seq<string> := ["main", "register_member_thread"]

  /** A method name the class treats as a thread candidate: it does not start with '_'. */
  predicate Public(name: string)
  {
    |name| > 0 && name[0] != '_'
  }

  /**
   * The comprehension that builds coro_list: the callable names, in dir()
   * order, that are public and not excepted.
   */
  function CoroList(names: seq<string>, exceptions: seq<string>): (r: seq<string>)
    ensures forall n :: n in r <==> n in names && Public(n) && n !in exceptions
    ensures |r| <= |names|
  {
    if |names| == 0 then []
    else
      var rest := CoroList(names[..|names| - 1], exceptions);
      var n := names[|names| - 1];
      if Public(n) && n !in exceptions then rest + [n] else rest
  }

  /**
   * The comprehension keeps dir() order: filtering the names of one list
   * after another is filtering each and putting the results one after the
   * other, so a name listed before another stays before it.
   */
  lemma {:induction false} CoroListAppend(a: seq<string>, b: seq<string>, exceptions: seq<string>)
    ensures CoroList(a + b, exceptions) == CoroList(a, exceptions) + CoroList(b, exceptions)
    decreases |b|
  {
    if |b| == 0 {
      assert a + b == a;
    } else {
      assert (a + b)[..|a + b| - 1] == a + b[..|b| - 1];
      CoroListAppend(a, b[..|b| - 1], exceptions);
    }
  }

  /** The keep-alive triggers after close: every thread told to stop, delays kept. */
  function Stopped(keepAlive: map<string, KeepAlive>): (r: map<string, KeepAlive>)
    ensures r.Keys == keepAlive.Keys
    ensures forall k :: k in r ==> !r[k].isAlive && r[k].sleepDelay == keepAlive[k].sleepDelay
  {
    map k | k in keepAlive :: keepAlive[k].(isAlive := false)
  }

  /** Every byte the chunks delivered, in order. */
  function Received(chunks: seq<ReadEvent>): string
  {
    if |chunks| == 0 then []
    else Received(chunks[..|chunks| - 1]) + (if chunks[|chunks| - 1].Got? then chunks[|chunks| - 1].data else [])
  }

  /** None of the first n chunks failed. */
  predicate AllGot(chunks: seq<ReadEvent>, n: int)
  {
    forall k :: 0 <= k < n && k < |chunks| ==> chunks[k].Got?
  }

  /** last_read after the given messages were cut off in turn: the last of them, or what it was. */
  function LastOr(init: string, messages: seq<string>): (r: string)
    ensures |messages| > 0 ==> r == messages[|messages| - 1]
    ensures |messages| == 0 ==> r == init
  {
    if |messages| == 0 then init else messages[|messages| - 1]
  }

  /** Taking messages in two rounds leaves the same last message as taking them all at once. */
  lemma LastOrAppend(init: string, a: seq<string>, b: seq<string>)
    ensures LastOr(LastOr(init, a), b) == LastOr(init, a + b)
  {
  }

  /** The chunks up to one more: its bytes follow what came before. */
  lemma ReadOneMore(chunks: seq<ReadEvent>, used: nat)
    requires used < |chunks|
    ensures Received(chunks[..used + 1]) == Received(chunks[..used]) + (if chunks[used].Got? then chunks[used].data else [])
    ensures AllGot(chunks, used) && chunks[used].Got? ==> AllGot(chunks, used + 1)
  {
    TakeOneMore(chunks, used);
  }

  /**
   * Whatever chunks the server's messages arrive in, the receive loop ends
   * up holding the last complete message and the unterminated rest.
   */
  lemma RecvKeepsLastMessage(messages: seq<string>, tail: string)
    requires |messages| > 0 && !Contains(tail, Terminator)
    requires forall k :: 0 <= k < |messages| ==> !Contains(messages[k], Terminator)
    ensures var f := Frames(Joined(messages, Terminator) + tail, Terminator);
      LastOr([], f.0) == messages[|messages| - 1] && f.1 == tail
  {
    assert BorderFree(Terminator) by {
      assert Terminator[..1][0] != Terminator[2..][0];
      assert Terminator[..2][0] != Terminator[1..][0];
    }
    FramesUnique(messages, tail, Terminator);
  }

  class PoserTemplateBase {
    /** Whether the object is a PoserClientBase, which also offers thread_register. */
    const client: bool
    var coroExceptions: seq<string>
    var coroList: seq<string>
    var keepAlive: map<string, KeepAlive>
    var lastRead: string
    /** What was written to the server, one write per entry. */
    var sent: seq<string>

    /** The three built-in threads always have a trigger. */
    predicate Valid()
      reads this
    {
      "close" in keepAlive && "send" in keepAlive && "recv" in keepAlive
    }

    /**
     * __init__: coro_list is computed from the callable names of dir(self)
     * before a client adds thread_register to the exceptions, so a client's
     * own thread_register is in coro_list.
     */
    constructor(methodNames: seq<string>, sendDelay: real, recvDelay: real, isClient: bool)
      ensures Valid() && client == isClient
      ensures coroList == CoroList(methodNames, BaseExceptions)
      ensures coroExceptions == BaseExceptions + (if isClient then ["thread_register"] else [])
      ensures keepAlive == map["close" := KeepAlive(true, 0.1), "send" := KeepAlive(true, sendDelay), "recv" := KeepAlive(true, recvDelay)]
      ensures lastRead == [] && sent == []
    {
      client := isClient;
      coroExceptions := BaseExceptions;
      coroList := CoroList(methodNames, BaseExceptions);
      keepAlive := map["close" := KeepAlive(true, 0.1), "send" := KeepAlive(true, sendDelay), "recv" := KeepAlive(true, recvDelay)];
      lastRead := [];
      sent := [];
      new;
      if isClient {
        coroExceptions := coroExceptions + ["thread_register"];
      }
    }

    /** _socket_init: once connected, the poser sends its id message. */
    method SocketInit()
      modifies this
      ensures sent == old(sent) + [FormatStrForWrite(IdMessage)]
      ensures keepAlive == old(keepAlive) && lastRead == old(lastRead)
      ensures coroList == old(coroList) && coroExceptions == old(coroExceptions)
    {
      sent := sent + [FormatStrForWrite(IdMessage)];
    }

    /** The coroutines main gathers: coro_list without the excepted names. */
    function Launched(): (r: seq<string>)
      reads this
      ensures forall n :: n in r <==> n in coroList && n !in coroExceptions
    {
      NotExcepted(coroList, coroExceptions)
    }

    /**
     * recv: while its trigger is alive, read a chunk into the back buffer
     * and cut off every complete message, keeping the last one in
     * last_read; an exception stops the trigger and the loop. Running out
     * of chunks also ends the loop here. Returns how many chunks were used
     * and what was left in the back buffer.
     */
    method Recv(chunks: seq<ReadEvent>) returns (used: nat, rest: string)
      requires Valid()
      modifies this
      ensures Valid() && used <= |chunks|
      ensures sent == old(sent) && coroList == old(coroList) && coroExceptions == old(coroExceptions)
      ensures keepAlive.Keys == old(keepAlive).Keys
      ensures var f := Frames(Received(chunks[..used]), Terminator); lastRead == LastOr(old(lastRead), f.0) && rest == f.1
      ensures !old(keepAlive)["recv"].isAlive ==> used == 0 && keepAlive == old(keepAlive)
      ensures old(keepAlive)["recv"].isAlive ==> AllGot(chunks, used - 1)
      ensures old(keepAlive)["recv"].isAlive ==>
        if used > 0 && chunks[used - 1].ReadFailed?
        then keepAlive == old(keepAlive)["recv" := old(keepAlive)["recv"].(isAlive := false)]
        else used == |chunks| && keepAlive == old(keepAlive)
    {
      used, rest := 0, [];
      assert chunks[..0] == [];
      FramesDone(rest, Terminator);
      if !keepAlive["recv"].isAlive {
        return;
      }
      var last, failed;
      used, last, rest, failed := ReadChunks(lastRead, chunks);
      lastRead := last;
      if failed {
        keepAlive := keepAlive["recv" := keepAlive["recv"].(isAlive := false)];
      }
    }

    /**
     * close, once its command loop ends: its own trigger and then every
     * trigger is set to stop, and the poser says goodbye to the server.
     */
    method Close()
      requires Valid()
      modifies this
      ensures Valid() && keepAlive == Stopped(old(keepAlive))
      ensures sent == old(sent) + [FormatStrForWrite(CloseMessage)]
      ensures lastRead == old(lastRead) && coroList == old(coroList) && coroExceptions == old(coroExceptions)
    {
      keepAlive := keepAlive["close" := keepAlive["close"].(isAlive := false)];
      keepAlive := StopAll(keepAlive);
      assert keepAlive == Stopped(old(keepAlive));
      sent := sent + [FormatStrForWrite(CloseMessage)];
    }

    /**
     * A thread decorated with register_member_thread, when first called: a
     * plain function without the executor flag is refused; a thread in
     * coro_list that is neither registered nor excepted gets a live
     * trigger; an excepted name only warns and runs unregistered; any other
     * name (already registered, or not in coro_list) raises NameError.
     */
    method RegisterMemberThread(name: string, sleepDelay: real, isCoroutine: bool, inExecutor: bool)
      returns (r: Result<Registration, RegisterError>)
      modifies this
      ensures !isCoroutine && !inExecutor ==> r == Err(ValueError)
      ensures (isCoroutine || inExecutor) && name in coroExceptions ==> r == Ok(RunUnregistered)
      ensures r == Ok(Registered) <==>
        (isCoroutine || inExecutor) && name !in old(keepAlive) && name in coroList && name !in coroExceptions
      ensures r == Ok(Registered) ==> keepAlive == old(keepAlive)[name := KeepAlive(true, sleepDelay)]
      ensures r != Ok(Registered) ==> keepAlive == old(keepAlive)
      ensures r.Err? && r.error.NameError? ==> r.error.name == name
      ensures sent == old(sent) && lastRead == old(lastRead)
      ensures coroList == old(coroList) && coroExceptions == old(coroExceptions)
    {
      if !isCoroutine && !inExecutor {
        return Err(ValueError);
      }
      if name !in keepAlive && name in coroList && name !in coroExceptions {
        keepAlive := keepAlive[name := KeepAlive(true, sleepDelay)];
        return Ok(Registered);
      } else if name in coroExceptions {
        return Ok(RunUnregistered);
      }
      return Err(NameError(name));
    }

    /**
     * PoserClientBase.thread_register: a new name (neither registered nor
     * in coro_list) gets a live trigger and joins coro_list; a known name
     * raises NameError.
     */
    method ThreadRegister(name: string, sleepDelay: real, isCoroutine: bool, inExecutor: bool)
      returns (r: Result<(), RegisterError>)
      requires client
      modifies this
      ensures !isCoroutine && !inExecutor ==> r == Err(ValueError)
      ensures (isCoroutine || inExecutor) ==> (r.Ok? <==> name !in old(keepAlive) && name !in old(coroList))
      ensures r.Ok? ==> keepAlive == old(keepAlive)[name := KeepAlive(true, sleepDelay)] && coroList == old(coroList) + [name]
      ensures r.Err? ==> keepAlive == old(keepAlive) && coroList == old(coroList)
      ensures (isCoroutine || inExecutor) && r.Err? ==> r == Err(NameError(name))
      ensures sent == old(sent) && lastRead == old(lastRead) && coroExceptions == old(coroExceptions)
    {
      if !isCoroutine && !inExecutor {
        return Err(ValueError);
      }
      if name !in keepAlive && name !in coroList {
        keepAlive := keepAlive[name := KeepAlive(true, sleepDelay)];
        coroList := coroList + [name];
        return Ok(());
      }
      return Err(NameError(name));
    }
  }

  /**
   * The body of recv's loop run over the chunks: each chunk read is added
   * to the back buffer and every complete message is cut off; a failed
   * read ends the loop. Returns how many chunks were used, the new
   * last_read, the back buffer and whether a read failed.
   */
  method ReadChunks(lastRead: string, chunks: seq<ReadEvent>) returns (used: nat, last: string, rest: string, failed: bool)
    ensures used <= |chunks|
    ensures var f := Frames(Received(chunks[..used]), Terminator); last == LastOr(lastRead, f.0) && rest == f.1
    ensures AllGot(chunks, used - 1)
    ensures failed <==> used > 0 && chunks[used - 1].ReadFailed?
    ensures !failed ==> used == |chunks|
  {
    used, last, rest, failed := 0, lastRead, [], false;
    assert chunks[..0] == [];
    FramesDone(rest, Terminator);
    while used < |chunks| && !failed
      invariant used <= |chunks|
      invariant var f := Frames(Received(chunks[..used]), Terminator); last == LastOr(lastRead, f.0) && rest == f.1
      invariant AllGot(chunks, used - 1)
      invariant failed <==> used > 0 && chunks[used - 1].ReadFailed?
      invariant !failed ==> AllGot(chunks, used)
      decreases |chunks| - used
    {
      ReadOneMore(chunks, used);
      match chunks[used] {
        case ReadFailed =>
          AppendEmpty(Received(chunks[..used]));
          failed := true;
        case Got(data) =>
          FramesAppend(Received(chunks[..used]), data, Terminator);
          LastOrAppend(lastRead, Frames(Received(chunks[..used]), Terminator).0, Frames(rest + data, Terminator).0);
          last, rest := TakeMessages(last, rest + data);
      }
      used := used + 1;
    }
  }

  /**
   * The inner loop of recv: while the back buffer holds the terminator,
   * the part in front of it becomes last_read and the rest stays. Returns
   * the new last_read and the back buffer.
   */
  method TakeMessages(lastRead: string, buffer: string) returns (last: string, rest: string)
    ensures last == LastOr(lastRead, Frames(buffer, Terminator).0)
    ensures rest == Frames(buffer, Terminator).1
  {
    last, rest := lastRead, buffer;
    ghost var all := Frames(buffer, Terminator);
    ghost var taken: seq<string> := [];
    AppendEmpty(taken);
    while Contains(rest, Terminator)
      invariant taken + Frames(rest, Terminator).0 == all.0 && Frames(rest, Terminator).1 == all.1
      invariant last == LastOr(lastRead, taken)
      decreases |rest|
    {
      var split := SplitOnce(rest, Terminator).value;
      FramesStep(rest, Terminator);
      AppendAssoc(taken, [split.0], Frames(split.1, Terminator).0);
      last := split.0;
      taken := taken + [split.0];
      rest := split.1;
    }
    FramesDone(rest, Terminator);
    AppendEmpty(taken);
  }

  /**
   * The write loop of send: the message is written once per successful
   * write; the first failed write ends the loop. Returns how many writes
   * were tried and the log with the written messages added.
   */
  method WriteAll(sent: seq<string>, msg: string, writes: seq<bool>) returns (used: nat, out: seq<string>)
    ensures used <= |writes| && |sent| <= |out| && out[..|sent|] == sent
    ensures forall i :: |sent| <= i < |out| ==> out[i] == msg
    ensures used > 0 && !writes[used - 1] ==> |out| == |sent| + used - 1
    ensures used == 0 || writes[used - 1] ==> used == |writes| && |out| == |sent| + used
  {
    used, out := 0, sent;
    while used < |writes|
      invariant used <= |writes|
      invariant |out| == |sent| + used && out[..|sent|] == sent
      invariant forall i :: |sent| <= i < |out| ==> out[i] == msg
      invariant used > 0 ==> writes[used - 1]
      decreases |writes| - used
    {
      if !writes[used] {
        used := used + 1;
        return;
      }
      PrefixOfAppend(out, msg);
      out := out + [msg];
      used := used + 1;
    }
  }

  /** The loop of close that sets every trigger to stop, one key at a time. */
  method StopAll(keepAlive: map<string, KeepAlive>) returns (r: map<string, KeepAlive>)
    ensures r == Stopped(keepAlive)
  {
    r := keepAlive;
    var keys := r.Keys;
    while keys != {}
      invariant keys <= r.Keys && r.Keys == keepAlive.Keys
      invariant forall k :: k in r ==> r[k].sleepDelay == keepAlive[k].sleepDelay
      invariant forall k :: k in r && k !in keys ==> !r[k].isAlive
      decreases keys
    {
      var k :| k in keys;
      if r[k].isAlive {
        r := r[k := r[k].(isAlive := false)];
      }
      keys := keys - {k};
    }
  }

  /** The names of `names` that are not excepted, in order. */
  function NotExcepted(names: seq<string>, exceptions: seq<string>): (r: seq<string>)
    ensures forall n :: n in r <==> n in names && n !in exceptions
  {
    if |names| == 0 then []
    else
      var rest := NotExcepted(names[..|names| - 1], exceptions);
      var n := names[|names| - 1];
      if n !in exceptions then rest + [n] else rest
  }
}
