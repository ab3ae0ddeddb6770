/**
 * The older poser template of virtualreality/templates/templates.py: a
 * poser holding one headset pose and two controller states, the thread
 * that streams them to the server as one line of space-separated numbers,
 * the thread that keeps the last line the server sent, closing, and the two
 * ways of registering a thread. The Pose records are those of the Poses
 * module; how a number is printed is a parameter.
 */
module Templates {
  import opened Wrappers
  import opened Framing
  import opened PoseUtil
  import opened Poses
  import opened TemplateBase

  const PoserId: string := "poser here"
  const Exceptions: seq<string> := ["main"]
  const RightHandPosition: seq<real> := [0.5, 1.0, -1.0, 1.0, 0.0, 0.0, 0.0]
  const LeftHandPosition: seq<real> := [0.5, 1.1, -1.0, 1.0, 0.0, 0.0, 0.0]
  const NoInputs: seq<real> := [0.0, 0.0, 0.0, 0.0, 0.0, 0.0, 0.0, 0.0, 0.0]

  /** Which of the poser's three records an operation addresses. */
  datatype Tracked = Headset | RightController | LeftController

  /** A printed number that can stand as one word of a space-separated line. */
  predicate Word(s: string)
  {
    |s| > 0 && !Contains(s, " ") && s[|s| - 1] != '\n'
  }

  /** The values printed one by one. */
  function Shown(show: real -> string, vals: seq<real>): (r: seq<string>)
    ensures |r| == |vals|
    ensures forall i :: 0 <= i < |vals| ==> r[i] == show(vals[i])
  {
    if |vals| == 0 then [] else [show(vals[0])] + Shown(show, vals[1..])
  }

  /** The values send puts on the wire: the headset's, then the right and the left controller's. */
  function Values(hmd: Pose, right: Pose, left: Pose): (r: seq<real>)
    ensures |r| == Len(hmd) + Len(right) + Len(left)
  {
    GetVals(hmd) + GetVals(right) + GetVals(left)
  }

  /** The headset's values come first, then the right controller's, then the left's. */
  lemma ValuesInOrder(hmd: Pose, right: Pose, left: Pose)
    ensures var r, h, c := Values(hmd, right, left), Len(hmd), Len(right);
      r[..h] == GetVals(hmd) && r[h..h + c] == GetVals(right) && r[h + c..] == GetVals(left)
  {
    var a, b, c := GetVals(hmd), GetVals(right), GetVals(left);
    assert (a + b + c)[..|a|] == a;
    assert (a + b + c)[|a|..|a| + |b|] == b;
    assert (a + b + c)[|a| + |b|..] == c;
  }

  /**
   * The line send writes: every value printed, joined by single spaces,
   * newline-terminated. There are at least 39 values, so the line is never
   * empty and always ends with its newline.
   */
  function PoseMessage(show: real -> string, hmd: Pose, right: Pose, left: Pose): (r: string)
    ensures |r| > 0 && r[|r| - 1] == '\n'
  {
    FormatStrForWrite(Join(Shown(show, Values(hmd, right, left)), " "))
  }

  /** The last character of a join is that of its last piece, when that piece is not empty. */
  lemma {:induction false} JoinEnds(pieces: seq<string>, sep: string)
    requires |pieces| > 0 && |pieces[|pieces| - 1]| > 0
    ensures var j := Join(pieces, sep); |j| > 0 && j[|j| - 1] == pieces[|pieces| - 1][|pieces[|pieces| - 1]| - 1]
    decreases |pieces|
  {
    if |pieces| > 1 {
      JoinEnds(pieces[1..], sep);
    }
  }

  /**
   * A reader of the line gets the numbers back: when every printed number
   * is one word, cutting the newline off and splitting on spaces gives one
   * word per value, in order, 13 for the headset and 22 for each controller.
   */
  lemma MessageSplitsIntoValues(show: real -> string, hmd: Pose, right: Pose, left: Pose)
    requires hmd.Pose? && right.ControllerState? && left.ControllerState?
    requires forall v :: Word(show(v))
    ensures var m := PoseMessage(show, hmd, right, left);
      |m| > 0 && m[|m| - 1] == '\n' &&
      SplitAll(m[..|m| - 1], " ") == Shown(show, Values(hmd, right, left)) &&
      |Values(hmd, right, left)| == 57
  {
    var vals := Values(hmd, right, left);
    var words := Shown(show, vals);
    var j := Join(words, " ");
    ShownWords(show, vals);
    JoinEnds(words, " ");
    assert PoseMessage(show, hmd, right, left) == j + "\n";
    assert (j + "\n")[..|j|] == j;
    assert BorderFree(" ");
    SplitAllJoin(words, " ");
  }

  /** Every printed value is a word without a space, and the last one is not empty. */
  lemma ShownWords(show: real -> string, vals: seq<real>)
    requires |vals| > 0 && forall v :: Word(show(v))
    ensures var words := Shown(show, vals);
      |words[|words| - 1]| > 0 && forall k :: 0 <= k < |words| ==> !Contains(words[k], " ")
  {
    var words := Shown(show, vals);
    ShownWord(show, vals[|vals| - 1]);
    forall k | 0 <= k < |words|
      ensures !Contains(words[k], " ")
    {
      ShownWord(show, vals[k]);
    }
  }

  /** One printed value is a word. */
  lemma ShownWord(show: real -> string, v: real)
    requires forall v :: Word(show(v))
    ensures |show(v)| > 0 && !Contains(show(v), " ")
  {
  }

  class PoserTemplate {
    /** Whether the object is a PoserClient, which also offers thread_register. */
    const client: bool
    var coroExceptions: seq<string>
    var coroList: seq<string>
    var keepAlive: map<string, KeepAlive>
    var pose: Pose
    var controllerR: Pose
    var controllerL: Pose
    var lastRead: string
    /** What was written to the server, one write per entry. */
    var sent: seq<string>

    /** The built-in threads have triggers, the headset is a Pose and the controllers are controller states. */
    predicate Valid()
      reads this
    {
      "close" in keepAlive && "send" in keepAlive && "recv" in keepAlive &&
      pose.Pose? && controllerR.ControllerState? && controllerL.ControllerState?
    }

    /**
     * __init__: coro_list from the callable names, before a client adds
     * thread_register to the exceptions; the headset at the default pose,
     * the right controller at (0.5, 1, -1) and the left at (0.5, 1.1, -1),
     * both unrotated, at rest and with no input pressed.
     */
    constructor(methodNames: seq<string>, sendDelay: real, recvDelay: real, isClient: bool)
      ensures Valid() && client == isClient
      ensures coroList == CoroList(methodNames, Exceptions)
      ensures coroExceptions == Exceptions + (if isClient then ["thread_register"] else [])
      ensures keepAlive == map["close" := KeepAlive(true, 0.1), "send" := KeepAlive(true, sendDelay), "recv" := KeepAlive(true, recvDelay)]
      ensures GetVals(pose) == DefaultPosition + DefaultVelocity
      ensures GetVals(controllerR) == RightHandPosition + DefaultVelocity + NoInputs
      ensures GetVals(controllerL) == LeftHandPosition + DefaultVelocity + NoInputs
      ensures lastRead == [] && sent == []
    {
      client := isClient;
      coroExceptions := Exceptions;
      coroList := CoroList(methodNames, Exceptions);
      keepAlive := map["close" := KeepAlive(true, 0.1), "send" := KeepAlive(true, sendDelay), "recv" := KeepAlive(true, recvDelay)];
      assert DefaultPosition[..7] == DefaultPosition && DefaultVelocity[..6] == DefaultVelocity;
      assert RightHandPosition[..7] == RightHandPosition && LeftHandPosition[..7] == LeftHandPosition;
      pose := NewPose(DefaultPosition, DefaultVelocity);
      controllerR := NewControllerState(RightHandPosition, DefaultVelocity, NoInputs);
      controllerL := NewControllerState(LeftHandPosition, DefaultVelocity, NoInputs);
      lastRead := [];
      sent := [];
      new;
      if isClient {
        coroExceptions := coroExceptions + ["thread_register"];
      }
    }

    /** _socket_init: once connected, the poser sends its id message. */
    method SocketInit()
      modifies this
      ensures sent == old(sent) + [FormatStrForWrite(PoserId)]
      ensures keepAlive == old(keepAlive) && lastRead == old(lastRead)
      ensures pose == old(pose) && controllerR == old(controllerR) && controllerL == old(controllerL)
      ensures coroList == old(coroList) && coroExceptions == old(coroExceptions)
    {
      sent := sent + [FormatStrForWrite(PoserId)];
    }

    /** The record an operation addresses. */
    function Record(which: Tracked): (p: Pose)
      reads this
      requires Valid()
      ensures which.Headset? <==> p.Pose?
    {
      match which
      case Headset => pose
      case RightController => controllerR
      case LeftController => controllerL
    }

    /**
     * poser.pose[key] = val (and the same on a controller): the record's
     * __setitem__; on success only that record changes.
     */
    method SetItem(which: Tracked, key: string, val: PyValue) returns (r: Result<(), PyError>)
      requires Valid()
      modifies this
      ensures Valid()
      ensures var q := Poses.SetItem(old(Record(which)), key, val);
        (r.Ok? <==> q.Ok?) && (r.Err? ==> r.error == q.error) &&
        Record(which) == (if q.Ok? then q.value else old(Record(which)))
      ensures forall t :: t != which ==> Record(t) == old(Record(t))
      ensures keepAlive == old(keepAlive) && lastRead == old(lastRead) && sent == old(sent)
      ensures coroList == old(coroList) && coroExceptions == old(coroExceptions)
    {
      var q := Poses.SetItem(Record(which), key, val);
      if q.Err? {
        return Err(q.error);
      }
      match which {
        case Headset => pose := q.value;
        case RightController => controllerR := q.value;
        case LeftController => controllerL := q.value;
      }
      r := Ok(());
    }

    /** The line send writes for the current records: one newline-terminated line. */
    function Line(show: real -> string): (r: string)
      reads this`pose, this`controllerR, this`controllerL
      ensures |r| > 0 && r[|r| - 1] == '\n'
    {
      PoseMessage(show, pose, controllerR, controllerL)
    }

    /**
     * send: while its trigger is alive, write the current poses as one
     * line; a failed write stops the trigger and the loop. `writes` says
     * which writes succeed; running out of them also ends the loop here.
     * Every entry added to `sent` is that line.
     */
    method Send(show: real -> string, writes: seq<bool>) returns (used: nat)
      requires Valid()
      modifies this
      ensures Valid() && used <= |writes|
      ensures pose == old(pose) && controllerR == old(controllerR) && controllerL == old(controllerL)
      ensures lastRead == old(lastRead) && coroList == old(coroList) && coroExceptions == old(coroExceptions)
      ensures |old(sent)| <= |sent| && sent[..|old(sent)|] == old(sent)
      ensures forall i :: |old(sent)| <= i < |sent| ==> sent[i] == Line(show)
      ensures !old(keepAlive)["send"].isAlive ==> used == 0 && sent == old(sent) && keepAlive == old(keepAlive)
      ensures old(keepAlive)["send"].isAlive && used > 0 && !writes[used - 1] ==>
        |sent| == |old(sent)| + used - 1
      ensures old(keepAlive)["send"].isAlive && used > 0 && !writes[used - 1] ==>
        keepAlive == old(keepAlive)["send" := old(keepAlive)["send"].(isAlive := false)]
      ensures old(keepAlive)["send"].isAlive && (used == 0 || writes[used - 1]) ==>
        used == |writes| && |sent| == |old(sent)| + used && keepAlive == old(keepAlive)
    {
      used := SendLine(Line(show), writes);
    }

    /** The loop of send for a given line `msg`. */
    method SendLine(msg: string, writes: seq<bool>) returns (used: nat)
      requires Valid()
      modifies this
      ensures Valid() && used <= |writes|
      ensures pose == old(pose) && controllerR == old(controllerR) && controllerL == old(controllerL)
      ensures lastRead == old(lastRead) && coroList == old(coroList) && coroExceptions == old(coroExceptions)
      ensures |old(sent)| <= |sent| && sent[..|old(sent)|] == old(sent)
      ensures forall i :: |old(sent)| <= i < |sent| ==> sent[i] == msg
      ensures !old(keepAlive)["send"].isAlive ==> used == 0 && sent == old(sent) && keepAlive == old(keepAlive)
      ensures old(keepAlive)["send"].isAlive && used > 0 && !writes[used - 1] ==>
        |sent| == |old(sent)| + used - 1
      ensures old(keepAlive)["send"].isAlive && used > 0 && !writes[used - 1] ==>
        keepAlive == old(keepAlive)["send" := old(keepAlive)["send"].(isAlive := false)]
      ensures old(keepAlive)["send"].isAlive && (used == 0 || writes[used - 1]) ==>
        used == |writes| && |sent| == |old(sent)| + used && keepAlive == old(keepAlive)
    {
      used := 0;
      var trigger := keepAlive["send"];
      if trigger.isAlive {
        var out;
        used, out := WriteAll(sent, msg, writes);
        if used > 0 && !writes[used - 1] {
          sent, keepAlive := out, keepAlive["send" := trigger.(isAlive := false)];
        } else {
          sent := out;
        }
      }
    }

    /**
     * recv: while its trigger is alive, read a line and keep it in
     * last_read; an exception stops the trigger and the loop. Running out
     * of lines also ends the loop here.
     */
    method Recv(lines: seq<ReadEvent>) returns (used: nat)
      requires Valid()
      modifies this
      ensures Valid() && used <= |lines|
      ensures pose == old(pose) && controllerR == old(controllerR) && controllerL == old(controllerL)
      ensures sent == old(sent) && coroList == old(coroList) && coroExceptions == old(coroExceptions)
      ensures lastRead == LastOr(old(lastRead), GotData(lines[..used]))
      ensures !old(keepAlive)["recv"].isAlive ==> used == 0 && keepAlive == old(keepAlive)
      ensures old(keepAlive)["recv"].isAlive ==> AllGot(lines, used - 1)
      ensures old(keepAlive)["recv"].isAlive ==>
        if used > 0 && lines[used - 1].ReadFailed?
        then keepAlive == old(keepAlive)["recv" := old(keepAlive)["recv"].(isAlive := false)]
        else used == |lines| && keepAlive == old(keepAlive)
    {
      used := 0;
      assert lines[..0] == [];
      if !keepAlive["recv"].isAlive {
        return;
      }
      var last, failed;
      used, last, failed := ReadLines(lastRead, lines);
      lastRead := last;
      if failed {
        keepAlive := keepAlive["recv" := keepAlive["recv"].(isAlive := false)];
      }
    }

    /**
     * close, once its command loop ends: its own trigger and then every
     * trigger is set to stop, and the poser says goodbye to the server.
     */
    method Close()
      requires Valid()
      modifies this
      ensures Valid() && keepAlive == Stopped(old(keepAlive))
      ensures sent == old(sent) + [FormatStrForWrite(CloseMessage)]
      ensures pose == old(pose) && controllerR == old(controllerR) && controllerL == old(controllerL)
      ensures lastRead == old(lastRead) && coroList == old(coroList) && coroExceptions == old(coroExceptions)
    {
      keepAlive := keepAlive["close" := keepAlive["close"].(isAlive := false)];
      keepAlive := StopAll(keepAlive);
      assert keepAlive == Stopped(old(keepAlive));
      sent := sent + [FormatStrForWrite(CloseMessage)];
    }

    /**
     * PoserClient.thread_register: a new name (neither registered nor in
     * coro_list) gets a live trigger and joins coro_list; a known name
     * raises NameError.
     */
    method ThreadRegister(name: string, sleepDelay: real, isCoroutine: bool, inExecutor: bool)
      returns (r: Result<(), RegisterError>)
      requires client && Valid()
      modifies this
      ensures Valid()
      ensures !isCoroutine && !inExecutor ==> r == Err(ValueError)
      ensures (isCoroutine || inExecutor) ==> (r.Ok? <==> name !in old(keepAlive) && name !in old(coroList))
      ensures r.Ok? ==> keepAlive == old(keepAlive)[name := KeepAlive(true, sleepDelay)] && coroList == old(coroList) + [name]
      ensures r.Err? ==> keepAlive == old(keepAlive) && coroList == old(coroList)
      ensures (isCoroutine || inExecutor) && r.Err? ==> r == Err(RegisterError.NameError(name))
      ensures pose == old(pose) && controllerR == old(controllerR) && controllerL == old(controllerL)
      ensures sent == old(sent) && lastRead == old(lastRead) && coroExceptions == old(coroExceptions)
    {
      if !isCoroutine && !inExecutor {
        return Err(ValueError);
      }
      if name !in keepAlive && name !in coroList {
        keepAlive := keepAlive[name := KeepAlive(true, sleepDelay)];
        coroList := coroList + [name];
        return Ok(());
      }
      return Err(RegisterError.NameError(name));
    }
  }

  /** The data of the lines that were read, in order. */
  function GotData(lines: seq<ReadEvent>): (r: seq<string>)
    ensures |r| <= |lines|
    ensures |lines| > 0 && lines[|lines| - 1].Got? ==> |r| > 0 && r[|r| - 1] == lines[|lines| - 1].data
  {
    if |lines| == 0 then []
    else
      var rest := GotData(lines[..|lines| - 1]);
      if lines[|lines| - 1].Got? then rest + [lines[|lines| - 1].data] else rest
  }

  /** Reading one more line adds its data, if it brought any. */
  lemma GotDataStep(lines: seq<ReadEvent>, i: nat)
    requires i < |lines|
    ensures GotData(lines[..i + 1]) == GotData(lines[..i]) + (if lines[i].Got? then [lines[i].data] else [])
  {
    assert lines[..i + 1][..i] == lines[..i];
  }

  /**
   * The loop of recv over the lines: each line read becomes last_read, and
   * a failed read ends the loop. Returns how many lines were used, the new
   * last_read and whether a read failed.
   */
  method ReadLines(lastRead: string, lines: seq<ReadEvent>) returns (used: nat, last: string, failed: bool)
    ensures used <= |lines| && last == LastOr(lastRead, GotData(lines[..used]))
    ensures AllGot(lines, used - 1)
    ensures failed <==> used > 0 && lines[used - 1].ReadFailed?
    ensures !failed ==> used == |lines|
  {
    used, last, failed := 0, lastRead, false;
    assert lines[..0] == [];
    while used < |lines| && !failed
      invariant used <= |lines| && last == LastOr(lastRead, GotData(lines[..used]))
      invariant AllGot(lines, used - 1)
      invariant failed <==> used > 0 && lines[used - 1].ReadFailed?
      invariant !failed ==> AllGot(lines, used)
      decreases |lines| - used
    {
      TakeOneMore(lines, used);
      GotDataStep(lines, used);
      match lines[used] {
        case ReadFailed =>
          failed := true;
        case Got(data) =>
          last := data;
      }
      used := used + 1;
    }
  }

  /**
   * The module-level thread_register decorator, when the thread is first
   * called: a plain function without the executor flag is refused; a name
   * in coro_list without a trigger gets a live one; any other name only
   * warns. Either way the thread then runs. The result says whether a
   * trigger was added.
   */
  method RegisterThread(poser: PoserTemplate, name: string, sleepDelay: real, isCoroutine: bool, inExecutor: bool)
    returns (r: Result<bool, RegisterError>)
    requires poser.Valid()
    modifies poser
    ensures poser.Valid()
    ensures !isCoroutine && !inExecutor <==> r == Err(ValueError)
    ensures r == Ok(true) <==> (isCoroutine || inExecutor) && name !in old(poser.keepAlive) && name in poser.coroList
    ensures r == Ok(true) ==> poser.keepAlive == old(poser.keepAlive)[name := KeepAlive(true, sleepDelay)]
    ensures r != Ok(true) ==> poser.keepAlive == old(poser.keepAlive)
    ensures poser.pose == old(poser.pose) && poser.controllerR == old(poser.controllerR) && poser.controllerL == old(poser.controllerL)
    ensures poser.sent == old(poser.sent) && poser.lastRead == old(poser.lastRead)
    ensures poser.coroList == old(poser.coroList) && poser.coroExceptions == old(poser.coroExceptions)
  {
    if !isCoroutine && !inExecutor {
      return Err(ValueError);
    }
    if name !in poser.keepAlive && name in poser.coroList {
      poser.keepAlive := poser.keepAlive[name := KeepAlive(true, sleepDelay)];
      return Ok(true);
    }
    return Ok(false);
  }
}
