/**
 * The Windows socket poser of the driver (driver/src/ref/com_recv_win.h):
 * the text of the last packet received is turned into the pose vector the
 * driver asks for with getPose. The socket calls themselves (connect, recv,
 * send, the listening thread) are outside the model: getPose is given the
 * receive buffer and the byte count of the last recv.
 */
module ComRecv {
  import opened Framing
  import opened Text
  import opened Numbers
  import opened Wrappers

  /** DEFAULT_BUFLEN: the size of the receive and copy buffers. */
  const BufLen: nat := 600

  /** The spaces among the characters of s. */
  function CountSpaces(s: seq<char>): (n: nat)
    ensures n <= |s|
  {
    if |s| == 0 then 0 else CountSpaces(s[..|s| - 1]) + if s[|s| - 1] == ' ' then 1 else 0
  }

  /** The index of the first NUL of s, or |s| when there is none. */
  function FirstNul(s: seq<char>): (i: nat)
    ensures i <= |s|
    ensures forall k :: 0 <= k < i ==> s[k] != '\0'
    ensures i < |s| ==> s[i] == '\0'
  {
    if |s| == 0 then 0 else if s[0] == '\0' then 0 else 1 + FirstNul(s[1..])
  }

  /** The C string a character array holds: everything before its first NUL (the whole array when it has none). */
  function CString(s: seq<char>): (r: seq<char>)
    ensures '\0' !in r && r <= s
  {
    s[..FirstNul(s)]
  }

  /** Zeros, n of them, or none for a negative n. */
  function Zeros(n: int): (r: seq<real>)
    ensures |r| == (if n < 0 then 0 else n) && forall k :: 0 <= k < |r| ==> r[k] == 0.0
  {
    if n <= 0 then [] else seq(n, _ => 0.0)
  }

  /** What std::stod-style reading makes of each word: a number, or None for a word that is none. */
  function Readings(words: seq<string>): (r: seq<Option<real>>)
    ensures |r| == |words| && forall i :: 0 <= i < |words| ==> r[i] == Stod(words[i])
  {
    seq(|words|, i requires 0 <= i < |words| => Stod(words[i]))
  }

  /** A count cut to the expected size, and never below zero. */
  function Cap(count: int, expected: int): (n: nat)
    ensures n <= (if count < 0 then 0 else count)
    ensures count >= expected ==> n == (if expected < 0 then 0 else expected)
  {
    var m := if count > expected then expected else count;
    if m < 0 then 0 else m
  }

  /**
   * The state of `ss >> temp` after n extractions from a stream whose
   * words read as `readings`: the values pushed, the current temp and
   * whether the stream has failed. A word that does not read as a number
   * gives 0 and fails the stream; a failed stream, or one with no word
   * left, leaves temp as it is.
   */
  function Extracted(readings: seq<Option<real>>, n: nat): (r: (seq<real>, real, bool))
    ensures |r.0| == n
  {
    if n == 0 then ([], 0.0, false)
    else
      var prev := Extracted(readings, n - 1);
      var next := ExtractOne(readings, n - 1, prev.1, prev.2);
      (prev.0 + [next.0], next.0, next.1)
  }

  /** Extraction number i on a stream in state (temp, failed). */
  function ExtractOne(readings: seq<Option<real>>, i: nat, temp: real, failed: bool): (r: (real, bool))
    ensures !failed && i < |readings| && readings[i].Some? ==> r == (readings[i].value, false)
    ensures r.1 <==> failed || i >= |readings| || readings[i].None?
    ensures r.1 && (failed || i >= |readings|) ==> r.0 == temp
  {
    if failed then (temp, true)
    else if i >= |readings| then (temp, true)
    else match readings[i]
      case Some(v) => (v, false)
      case None => (0.0, true)
  }

  /** While every word read so far is a number, extraction gives the numbers, word for word. */
  lemma {:induction false} ExtractedNumbers(readings: seq<Option<real>>, n: nat)
    requires n <= |readings| && forall k :: 0 <= k < n ==> readings[k].Some?
    ensures !Extracted(readings, n).2
    ensures forall k :: 0 <= k < n ==> Extracted(readings, n).0[k] == readings[k].value
  {
    if n > 0 {
      ExtractedNumbers(readings, n - 1);
    }
  }

  /** Once the stream fails, every later extraction repeats the value it failed with. */
  lemma {:induction false} ExtractedAfterFailure(readings: seq<Option<real>>, f: nat, n: nat)
    requires f < n && Extracted(readings, f + 1).2
    ensures Extracted(readings, n).2 && Extracted(readings, n).1 == Extracted(readings, f + 1).1
    ensures forall k :: f <= k < n ==> Extracted(readings, n).0[k] == Extracted(readings, f + 1).1
    decreases n
  {
    if n > f + 1 {
      ExtractedAfterFailure(readings, f, n - 1);
    }
  }

  /** Words joined with single spaces have one space fewer than words. */
  lemma {:induction false} SpacesOfJoin(words: seq<string>)
    requires |words| > 0 && forall k :: 0 <= k < |words| ==> ' ' !in words[k]
    ensures CountSpaces(Join(words, " ")) + 1 == |words|
    decreases |words|
  {
    NoSpaces(words[0]);
    if |words| > 1 {
      var rest := Join(words[1..], " ");
      SpacesOfJoin(words[1..]);
      SpacesAppend(words[0] + " ", rest);
      SpacesAppend(words[0], " ");
      assert CountSpaces(" ") == 1 by {
        assert " "[..0] == [];
      }
    }
  }

  /** A word without spaces counts none. */
  lemma {:induction false} NoSpaces(w: string)
    requires ' ' !in w
    ensures CountSpaces(w) == 0
    decreases |w|
  {
    if |w| > 0 {
      NoSpaces(w[..|w| - 1]);
    }
  }

  /** Counting spaces over two parts, the second free of spaces or a single space. */
  lemma {:induction false} SpacesAppend(a: seq<char>, b: seq<char>)
    ensures CountSpaces(a + b) == CountSpaces(a) + CountSpaces(b)
    decreases |b|
  {
    if |b| == 0 {
      assert a + b == a;
    } else {
      assert (a + b)[..|a + b| - 1] == a + b[..|b| - 1];
      SpacesAppend(a, b[..|b| - 1]);
    }
  }

  /** The NUL or the length bound cleanCharList stops at. */
  function Stop(s: seq<char>, len: int): (i: nat)
    requires len <= |s| || '\0' in s
    ensures i <= |s|
  {
    if len <= 0 then 0 else if len < FirstNul(s) then len else FirstNul(s)
  }

  /** The buffer with every newline before `stop` made a space. */
  function Cleaned(s: seq<char>, stop: nat): (r: seq<char>)
    requires stop <= |s|
    ensures |r| == |s|
    ensures forall k :: 0 <= k < stop ==> r[k] != '\n' && (s[k] != '\n' ==> r[k] == s[k])
    ensures r[stop..] == s[stop..]
  {
    seq(|s|, k requires 0 <= k < |s| => if k < stop && s[k] == '\n' then ' ' else s[k])
  }

  /** Cleaning keeps the NULs where they are, so cleaning again changes nothing. */
  lemma CleanedTwice(s: seq<char>, len: int)
    requires len <= |s| || '\0' in s
    ensures var c := Cleaned(s, Stop(s, len));
      (len <= |c| || '\0' in c) && Stop(c, len) == Stop(s, len) && Cleaned(c, Stop(c, len)) == c
  {
    var c := Cleaned(s, Stop(s, len));
    forall k | 0 <= k < |s|
      ensures c[k] == '\0' <==> s[k] == '\0'
    {
    }
    assert FirstNul(c) == FirstNul(s) by {
      if FirstNul(s) < |s| {
        assert c[FirstNul(s)] == '\0';
      }
      if FirstNul(c) < |c| {
        assert s[FirstNul(c)] == '\0';
      }
    }
    if '\0' in s {
      var k :| 0 <= k < |s| && s[k] == '\0';
      assert c[k] == '\0';
    }
  }

  /** The pose of getPose for a packet whose words are spaced out: one value per word. */
  function ReadPose(count: int, expected: int, extracted: seq<real>): (r: seq<real>)
    ensures count < expected ==> r == Zeros(expected)
    ensures count >= expected ==> r == extracted
  {
    if count < expected then Zeros(expected) else extracted
  }

  /** socketPoser: the pose read from the last packet, and the copy buffer it is read through. */
  class SocketPoser {
    const expectedPoseSize: int
    var newPose: seq<real>
    /** copybuf: the received bytes are copied here before they are read. */
    const copyBuf: array<char>

    /** getPose hands out a vector of expectedPoseSize values. */
    predicate Valid()
      reads this
    {
      copyBuf.Length == BufLen && |newPose| == if expectedPoseSize < 0 then 0 else expectedPoseSize
    }

    /** The constructor: newPose is expectedPoseSize zeros; the copy buffer holds whatever `memory` says. */
    constructor(expected: int, memory: seq<char>)
      requires |memory| == BufLen
      ensures Valid() && fresh(copyBuf)
      ensures expectedPoseSize == expected && newPose == Zeros(expected) && copyBuf[..] == memory
    {
      expectedPoseSize := expected;
      newPose := Zeros(expected);
      copyBuf := new char[BufLen](i requires 0 <= i < BufLen => memory[i]);
    }

    /**
     * convert2ss: the packet's value count is its spaces before `len`, plus
     * one; at most expectedPoseSize values are then read from the buffer's
     * text into newPose.
     */
    method Convert2ss(buffer: array<char>, len: int) returns (count: int)
      requires len <= buffer.Length
      modifies this
      ensures count == CountSpaces(old(buffer[..])[..if len < 0 then 0 else len]) + 1
      ensures newPose == Extracted(Readings(SplitWhitespace(CString(old(buffer[..])))), Cap(count, expectedPoseSize)).0
    {
      var spaceCount := SpacesBefore(buffer, len);
      spaceCount := spaceCount + 1;
      count := spaceCount;
      if spaceCount > expectedPoseSize {
        spaceCount := expectedPoseSize;
      }
      var readings := Readings(SplitWhitespace(CString(buffer[..])));
      newPose := Extract(readings, if spaceCount < 0 then 0 else spaceCount);
    }

    /** The spaces among the first len characters of the buffer. */
    static method SpacesBefore(buffer: array<char>, len: int) returns (spaceCount: nat)
      requires len <= buffer.Length
      ensures spaceCount == CountSpaces(buffer[..if len < 0 then 0 else len])
    {
      spaceCount := 0;
      var i := 0;
      while i < len
        invariant 0 <= i && (len >= 0 ==> i <= len) && (len < 0 ==> i == 0)
        invariant spaceCount == CountSpaces(buffer[..i])
      {
        assert buffer[..i + 1][..i] == buffer[..i];
        if buffer[i] == ' ' {
          spaceCount := spaceCount + 1;
        }
        i := i + 1;
      }
    }

    /** `ss >> temp; newPose.push_back(temp)`, n times over a fresh stream. */
    static method Extract(readings: seq<Option<real>>, n: nat) returns (values: seq<real>)
      ensures values == Extracted(readings, n).0
    {
      var temp := 0.0;
      var failed := false;
      values := [];
      var k := 0;
      while k < n
        invariant k <= n
        invariant (values, temp, failed) == Extracted(readings, k)
      {
        var next := ExtractOne(readings, k, temp, failed);
        temp, failed := next.0, next.1;
        values := values + [temp];
        k := k + 1;
      }
    }

    /**
     * cleanCharList: turn every newline before the first NUL (or before
     * `len`) into a space and give back the index it stopped at, minus one.
     */
    static method CleanCharList(buffer: array<char>, len: int) returns (newLen: int)
      requires len <= buffer.Length || '\0' in buffer[..]
      modifies buffer
      ensures newLen == Stop(old(buffer[..]), len) - 1
      ensures buffer[..] == Cleaned(old(buffer[..]), Stop(old(buffer[..]), len))
    {
      ghost var s := buffer[..];
      ghost var stop := Stop(s, len);
      var i := 0;
      while i < len && buffer[i] != '\0'
        invariant i <= stop
        invariant forall k :: 0 <= k < i ==> buffer[k] == (if s[k] == '\n' then ' ' else s[k])
        invariant forall k :: i <= k < buffer.Length ==> buffer[k] == s[k]
      {
        if buffer[i] == '\n' {
          buffer[i] := ' ';
        }
        i := i + 1;
      }
      assert i == stop;
      ghost var c := Cleaned(s, stop);
      forall k | 0 <= k < buffer.Length
        ensures buffer[k] == c[k]
      {
      }
      assert buffer[..] == c;
      newLen := i - 1;
    }

    /** The copy loop of getPose: the first n received characters go to the front of `dst`. */
    static method CopyPrefix(dst: array<char>, src: seq<char>, n: int) returns (i: nat)
      requires n <= |src| && n <= dst.Length
      modifies dst
      ensures i == (if n < 0 then 0 else n)
      ensures dst[..i] == src[..i] && dst[..] == src[..i] + old(dst[..])[i..]
    {
      ghost var before := dst[..];
      i := 0;
      while i < n
        invariant (n >= 0 ==> i <= n) && (n < 0 ==> i == 0)
        invariant forall k :: 0 <= k < i ==> dst[k] == src[k]
        invariant forall k :: i <= k < dst.Length ==> dst[k] == before[k]
      {
        dst[i] := src[i];
        i := i + 1;
      }
      assert dst[..i] == src[..i];
      assert dst[..] == src[..i] + before[i..];
    }

    /**
     * getPose: copy the bufLen received bytes to the copy buffer and, for a
     * positive count, read the pose from it; a packet with fewer values
     * than expected gives zeros. The pose is returned either way.
     */
    method GetPose(recvBuf: seq<char>, bufLen: int) returns (pose: seq<real>)
      requires Valid() && |recvBuf| == BufLen && bufLen <= BufLen
      modifies this, copyBuf
      ensures Valid() && pose == newPose
      ensures bufLen <= 0 ==> copyBuf[..] == old(copyBuf[..]) && newPose == old(newPose)
      ensures bufLen > 0 ==> copyBuf[..] == recvBuf[..bufLen] + old(copyBuf[..])[bufLen..]
      ensures bufLen > 0 ==> var count := CountSpaces(recvBuf[..bufLen]) + 1;
        newPose == ReadPose(count, expectedPoseSize, Extracted(Readings(SplitWhitespace(CString(copyBuf[..]))), Cap(count, expectedPoseSize)).0)
    {
      var i := CopyPrefix(copyBuf, recvBuf, bufLen);
      if i > 0 {
        ghost var buf := copyBuf[..];
        assert buf[..i] == recvBuf[..bufLen];
        var count := Convert2ss(copyBuf, i);
        CheckSize(count, Extracted(Readings(SplitWhitespace(CString(buf))), Cap(count, expectedPoseSize)).0);
        assert copyBuf[..] == buf;
      }
      pose := newPose;
    }

    /** The size check of getPose: a pose shorter than expected is replaced by zeros. */
    method CheckSize(count: int, ghost extracted: seq<real>)
      requires newPose == extracted && |extracted| == Cap(count, expectedPoseSize)
      requires copyBuf.Length == BufLen
      modifies this
      ensures Valid() && newPose == ReadPose(count, expectedPoseSize, extracted)
    {
      if count != expectedPoseSize && count < expectedPoseSize {
        newPose := Zeros(expectedPoseSize);
      }
    }
  }

  /**
   * A packet of n written naturals separated by single spaces, alone in
   * the buffer, reads back as those n values when n is the expected size.
   */
  lemma ReadWrittenPose(ns: seq<nat>)
    requires |ns| > 0
    ensures var text := Join(Written(ns), " ");
      CountSpaces(text) + 1 == |ns| &&
      ReadPose(|ns|, |ns|, Extracted(Readings(SplitWhitespace(text)), |ns|).0) == seq(|ns|, k requires 0 <= k < |ns| => ns[k] as real)
  {
    var words := Written(ns);
    var text := Join(words, " ");
    assert CountSpaces(text) + 1 == |ns| && SplitWhitespace(text) == words by {
      WrittenWords(ns);
      SpacesOfJoin(words);
      SplitWhitespaceOfJoin(words);
    }
    var readings := Readings(words);
    assert forall k :: 0 <= k < |readings| ==> readings[k] == Some(ns[k] as real) by {
      WrittenWordsRead(ns);
    }
    ReadWrittenWords(ns, readings);
  }

  /** Extracting as many values as there are readings of written words gives the numbers back. */
  lemma ReadWrittenWords(ns: seq<nat>, readings: seq<Option<real>>)
    requires |readings| == |ns| && forall k :: 0 <= k < |readings| ==> readings[k] == Some(ns[k] as real)
    ensures ReadPose(|ns|, |ns|, Extracted(readings, |ns|).0) == seq(|ns|, k requires 0 <= k < |ns| => ns[k] as real)
  {
    ExtractedNumbers(readings, |ns|);
    var e := Extracted(readings, |ns|).0;
    assert e == seq(|ns|, k requires 0 <= k < |ns| => ns[k] as real);
  }
}
