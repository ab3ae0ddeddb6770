/**
 * The Python pose utilities of virtualreality/util/utilz.py: the write
 * framing of a message, reading numbers out of a text packet, the
 * "h13 c22 t13" layout string, cutting a number list into per-device
 * poses, and the calibration countdown of the lazy Kalman filter.
 */
module PoseUtil {
  import opened Wrappers
  import opened Framing
  import opened Text
  import opened Numbers
  import opened SockUtil

  /**
   * format_str_for_write: empty text stays empty; other text gets a
   * newline appended unless it already ends with one. The UTF-8 encoding
   * of ASCII text is the text itself.
   */
  function FormatStrForWrite(s: string): (r: string)
    ensures s == [] <==> r == []
    ensures s != [] ==> |r| == if s[|s| - 1] == '\n' then |s| else |s| + 1
    ensures s != [] ==> r[|r| - 1] == '\n' && r[..|s|] == s
  {
    if |s| < 1 then []
    else if s[|s| - 1] != '\n' then s + "\n"
    else s
  }

  /** Formatting a formatted message changes nothing more. */
  lemma FormatIdempotent(s: string)
    ensures FormatStrForWrite(FormatStrForWrite(s)) == FormatStrForWrite(s)
  {
  }

  /** The letters and brackets whose presence makes a packet unreadable; 'e' is not among them. */
  const Letters: string := "qwrtyuiopsasdfghjklzxcvbnm><*[]{}()"

  predicate AllFloats(pieces: seq<string>)
  {
    forall k :: 0 <= k < |pieces| ==> PyFloat(pieces[k]).Some?
  }

  /**
   * get_numbers_from_text: nothing for empty text, for text holding one of
   * the listed letters (in either case) or brackets, for an empty separator
   * and when a piece between separators is not a number (the exception is
   * caught); otherwise the number of every piece, in order.
   */
  function GetNumbersFromText(text: string, separator: string): (r: seq<real>)
    ensures text == [] || SharesCharacters(Lower(text), Letters) || separator == [] ==> r == []
    ensures text != [] && !SharesCharacters(Lower(text), Letters) && separator != [] ==>
      var pieces := SplitAll(text, separator);
      (AllFloats(pieces) ==> |r| == |pieces| && forall k :: 0 <= k < |r| ==> Some(r[k]) == PyFloat(pieces[k])) &&
      (!AllFloats(pieces) ==> r == [])
  {
    if SharesCharacters(Lower(text), Letters) || |text| == 0 then []
    else if separator == [] then []
    else
      var pieces := SplitAll(text, separator);
      if AllFloats(pieces) then seq(|pieces|, k requires 0 <= k < |pieces| => PyFloat(pieces[k]).value)
      else []
  }

  /** The separators the callers use. */
  predicate PlainSeparator(sep: string)
  {
    sep == " " || sep == "\t" || sep == ","
  }

  /** Natural numbers written out and joined with a separator are read back. */
  lemma ReadWrittenNumbers(ns: seq<nat>, sep: string)
    requires |ns| > 0 && PlainSeparator(sep)
    ensures GetNumbersFromText(Join(Written(ns), sep), sep) == seq(|ns|, k requires 0 <= k < |ns| => ns[k] as real)
  {
    WrittenTextSplits(ns, sep);
    WrittenTextHasNoLetters(ns, sep);
    ReadWrittenPieces(Join(Written(ns), sep), sep, ns);
  }

  lemma ReadWrittenPieces(text: string, sep: string, ns: seq<nat>)
    requires text != [] && sep != [] && !SharesCharacters(Lower(text), Letters)
    requires SplitAll(text, sep) == Written(ns)
    ensures ReadsAs(text, sep, seq(|ns|, k requires 0 <= k < |ns| => ns[k] as real))
  {
    WrittenWordsRead(ns);
    ReadPieces(text, sep, Written(ns), ns);
  }

  /** Written naturals joined with a plain separator split back into themselves. */
  lemma WrittenTextSplits(ns: seq<nat>, sep: string)
    requires |ns| > 0 && PlainSeparator(sep)
    ensures SplitAll(Join(Written(ns), sep), sep) == Written(ns)
  {
    var words := Written(ns);
    WrittenWords(ns);
    forall k | 0 <= k < |words|
      ensures !Contains(words[k], sep)
    {
      DigitsFreeOfSeparator(words[k], sep);
    }
    SplitAllJoin(words, sep);
  }

  /** Written naturals joined with a plain separator make a non-empty text without letters. */
  lemma WrittenTextHasNoLetters(ns: seq<nat>, sep: string)
    requires |ns| > 0 && PlainSeparator(sep)
    ensures Join(Written(ns), sep) != [] && !SharesCharacters(Lower(Join(Written(ns), sep)), Letters)
  {
    var words := Written(ns);
    WrittenWords(ns);
    JoinDigitsOrSeparator(words, sep);
    JoinNonEmpty(words, sep);
    NoLetters(Join(words, sep), sep);
  }

  lemma ReadPieces(text: string, sep: string, pieces: seq<string>, ns: seq<nat>)
    requires text != [] && sep != [] && !SharesCharacters(Lower(text), Letters)
    requires SplitAll(text, sep) == pieces && |pieces| == |ns|
    requires forall k :: 0 <= k < |pieces| ==> PyFloat(pieces[k]) == Some(ns[k] as real)
    ensures ReadsAs(text, sep, seq(|ns|, k requires 0 <= k < |ns| => ns[k] as real))
  {
  }

  /** The numbers read from `text` are `values`. */
  ghost predicate ReadsAs(text: string, sep: string, values: seq<real>)
  {
    GetNumbersFromText(text, sep) == values
  }

  lemma DigitsFreeOfSeparator(w: string, sep: string)
    requires AllDigits(w) && PlainSeparator(sep)
    ensures !Contains(w, sep)
  {
    forall i | 0 <= i <= |w|
      ensures !OccursAt(w, sep, i)
    {
      if i + 1 <= |w| {
        assert w[i..i + 1][0] == w[i];
      }
    }
  }

  /** Digits and a plain separator are neither listed letters nor upper-case letters. */
  lemma NoLetters(text: string, sep: string)
    requires PlainSeparator(sep)
    requires forall j :: 0 <= j < |text| ==> IsDigit(text[j]) || text[j] == sep[0]
    ensures !SharesCharacters(Lower(text), Letters)
  {
    var low := Lower(text);
    assert forall j :: 0 <= j < |low| ==> low[j] == text[j];
    forall k | 0 <= k < |Letters|
      ensures Letters[k] !in low
    {
    }
  }

  /** Every character of digit words joined with a one-character separator is a digit or the separator. */
  lemma {:induction false} JoinDigitsOrSeparator(words: seq<string>, sep: string)
    requires |sep| == 1 && forall k :: 0 <= k < |words| ==> AllDigits(words[k])
    ensures forall j :: 0 <= j < |Join(words, sep)| ==> IsDigit(Join(words, sep)[j]) || Join(words, sep)[j] == sep[0]
    decreases |words|
  {
    if |words| > 1 {
      JoinDigitsOrSeparator(words[1..], sep);
      var rest := Join(words[1..], sep);
      var s := Join(words, sep);
      assert s == words[0] + sep + rest;
      forall j | 0 <= j < |s|
        ensures IsDigit(s[j]) || s[j] == sep[0]
      {
        if j < |words[0]| {
          assert s[j] == words[0][j];
        } else if j > |words[0]| {
          assert s[j] == rest[j - |words[0]| - 1];
        }
      }
    } else if |words| == 1 {
      assert Join(words, sep) == words[0];
    }
  }

  lemma JoinNonEmpty(words: seq<string>, sep: string)
    requires |words| > 0 && words[0] != []
    ensures Join(words, sep) != []
  {
  }

  /** One word of a layout string: a device letter h, t or c and a decimal field count. */
  predicate StructToken(w: string)
  {
    |w| >= 2 && (w[0] == 'h' || w[0] == 't' || w[0] == 'c') && AllDigits(w[1..])
  }

  /** The regular expression ([htc][0-9]+[ ])*([htc][0-9]+) matches all of `text`. */
  predicate MatchesStruct(text: string)
    decreases |text|
  {
    StructToken(text) ||
    exists i :: 0 < i < |text| && text[i] == ' ' && StructToken(text[..i]) && MatchesStruct(text[i + 1..])
  }

  predicate AllTokens(pieces: seq<string>)
  {
    forall k :: 0 <= k < |pieces| ==> StructToken(pieces[k])
  }

  /**
   * get_pose_struct_from_text: when the whole text matches the layout
   * pattern, the device letters and the field counts of its words, in
   * order; otherwise two empty tuples.
   */
  function GetPoseStructFromText(text: string): (r: (string, seq<nat>))
    ensures !MatchesStruct(text) ==> r == ([], [])
    ensures MatchesStruct(text) ==>
      var words := SplitAll(text, " ");
      |r.0| == |r.1| == |words| && forall k :: 0 <= k < |words| ==>
        StructToken(words[k]) && r.0[k] == words[k][0] && r.1[k] == DigitsValue(words[k][1..])
  {
    if MatchesStruct(text) then
      var words := SplitAll(text, " ");
      MatchesStructSplit(text);
      (seq(|words|, k requires 0 <= k < |words| => words[k][0]),
       seq(|words|, k requires 0 <= k < |words| => DigitsValue(words[k][1..])))
    else ([], [])
  }

  lemma NoSpaceInToken(w: string)
    requires StructToken(w)
    ensures !Contains(w, " ")
  {
    forall i | 0 <= i <= |w|
      ensures !OccursAt(w, " ", i)
    {
      if 0 < i < |w| {
        assert w[i..i + 1][0] == w[1..][i - 1];
      } else if i == 0 {
        assert w[0..1][0] == w[0];
      }
    }
  }

  /** Text without a space is split into itself. */
  lemma SplitAllNoSep(s: string)
    requires !Contains(s, " ")
    ensures SplitAll(s, " ") == [s]
  {
    var r := Find(s, " ", 0);
    assert r.Some? ==> OccursAt(s, " ", r.value);
  }

  /** A space-free word, a space and the rest are split into the word and the split of the rest. */
  lemma SplitAllFirst(w: string, rest: string)
    requires !Contains(w, " ")
    ensures SplitAll(w + " " + rest, " ") == [w] + SplitAll(rest, " ")
  {
    FirstOccurrenceAfterPacket(w, " ", rest);
    var s := w + " " + rest;
    assert s[..|w|] == w && s[|w| + 1..] == rest;
  }

  /** The layout pattern matches exactly the texts whose space-separated words are all layout words. */
  lemma MatchesStructSplit(text: string)
    ensures MatchesStruct(text) <==> AllTokens(SplitAll(text, " "))
  {
    if MatchesStruct(text) {
      MatchesThenTokens(text);
    }
    if AllTokens(SplitAll(text, " ")) {
      TokensThenMatches(text);
    }
  }

  lemma {:induction false} MatchesThenTokens(text: string)
    requires MatchesStruct(text)
    ensures AllTokens(SplitAll(text, " "))
    decreases |text|
  {
    if StructToken(text) {
      NoSpaceInToken(text);
      SplitAllNoSep(text);
    } else {
      var i :| 0 < i < |text| && text[i] == ' ' && StructToken(text[..i]) && MatchesStruct(text[i + 1..]);
      MatchesThenTokens(text[i + 1..]);
      TokensStep(text, i);
    }
  }

  /** A layout word, a space and text of layout words are text of layout words. */
  lemma TokensStep(text: string, i: nat)
    requires 0 < i < |text| && text[i] == ' ' && StructToken(text[..i])
    requires AllTokens(SplitAll(text[i + 1..], " "))
    ensures AllTokens(SplitAll(text, " "))
  {
    var w, rest := text[..i], text[i + 1..];
    NoSpaceInToken(w);
    SplitAllFirst(w, rest);
    SpaceSplit(text, i);
    var later := SplitAll(rest, " ");
    assert SplitAll(text, " ") == [w] + later;
    assert forall k :: 1 <= k < |later| + 1 ==> ([w] + later)[k] == later[k - 1];
  }

  lemma SpaceSplit(text: string, i: nat)
    requires i < |text| && text[i] == ' '
    ensures text[..i] + " " + text[i + 1..] == text
  {
  }

  lemma {:induction false} TokensThenMatches(text: string)
    requires AllTokens(SplitAll(text, " "))
    ensures MatchesStruct(text)
    decreases |text|
  {
    var pieces := SplitAll(text, " ");
    if |pieces| == 1 {
      assert text == pieces[0];
    } else {
      var w := pieces[0];
      var rest := Join(pieces[1..], " ");
      assert text == w + " " + rest;
      NoSpaceInToken(w);
      SplitAllFirst(w, rest);
      assert SplitAll(rest, " ") == pieces[1..];
      TokensThenMatches(rest);
      assert text[..|w|] == w && text[|w| + 1..] == rest;
      assert text[|w|] == ' ';
    }
  }

  predicate IsDeviceLetter(c: char)
  {
    c == 'h' || c == 't' || c == 'c'
  }

  /** A layout written as letter-and-count words joined with spaces is read back as those letters and counts. */
  lemma ReadWrittenStruct(types: string, sizes: seq<nat>)
    requires |types| == |sizes| > 0
    requires forall k :: 0 <= k < |types| ==> IsDeviceLetter(types[k])
    ensures var words := seq(|types|, k requires 0 <= k < |types| => [types[k]] + NatToString(sizes[k]));
      GetPoseStructFromText(Join(words, " ")) == (types, sizes)
  {
    var words := seq(|types|, k requires 0 <= k < |types| => [types[k]] + NatToString(sizes[k]));
    forall k | 0 <= k < |words|
      ensures StructToken(words[k]) && !Contains(words[k], " ")
    {
      assert words[k][1..] == NatToString(sizes[k]);
      NoSpaceInToken(words[k]);
    }
    SplitAllJoin(words, " ");
    MatchesStructSplit(Join(words, " "));
    var r := GetPoseStructFromText(Join(words, " "));
    forall k | 0 <= k < |words|
      ensures r.0[k] == types[k] && r.1[k] == sizes[k]
    {
      assert words[k][1..] == NatToString(sizes[k]);
      NatToStringValue(sizes[k]);
    }
    assert r.0 == types && r.1 == sizes;
  }

  /**
   * parse_poses_from_packet: one shared iterator over the packet, each size
   * taking the next items (islice); once the packet runs out the remaining
   * poses are short or empty.
   */
  function ParsePosesFromPacket<T>(packet: seq<T>, struct: seq<nat>): (r: seq<seq<T>>)
    ensures |r| == |struct|
    ensures forall k :: 0 <= k < |r| ==> |r[k]| <= struct[k]
  {
    if struct == [] then []
    else
      var n := if struct[0] <= |packet| then struct[0] else |packet|;
      var rest := ParsePosesFromPacket(packet[n..], struct[1..]);
      assert forall k :: 1 <= k < |rest| + 1 ==> ([packet[..n]] + rest)[k] == rest[k - 1];
      [packet[..n]] + rest
  }

  /** The poses consume the packet in order: together they are its first Sum(struct) items, or all of it. */
  lemma ParsePosesConsumes<T>(packet: seq<T>, struct: seq<nat>)
    ensures Concat(ParsePosesFromPacket(packet, struct)) ==
      if Sum(struct) <= |packet| then packet[..Sum(struct)] else packet
  {
    PosesConsumeByInduction(packet, struct);
  }

  /** The statement of ParsePosesConsumes, named so that its inductive proof can pass it on whole. */
  ghost predicate PosesConsume<T>(packet: seq<T>, struct: seq<nat>)
  {
    Concat(ParsePosesFromPacket(packet, struct)) ==
      if Sum(struct) <= |packet| then packet[..Sum(struct)] else packet
  }

  lemma {:induction false} PosesConsumeByInduction<T>(packet: seq<T>, struct: seq<nat>)
    ensures PosesConsume(packet, struct)
  {
    if struct != [] {
      var n := if struct[0] <= |packet| then struct[0] else |packet|;
      PosesConsumeByInduction(packet[n..], struct[1..]);
      PosesConsumeStep(packet, struct);
    }
  }

  /** PosesConsume for the first pose, from PosesConsume for the packet left after it. */
  lemma PosesConsumeStep<T>(packet: seq<T>, struct: seq<nat>)
    requires struct != []
    requires var n := if struct[0] <= |packet| then struct[0] else |packet|;
      PosesConsume(packet[n..], struct[1..])
    ensures PosesConsume(packet, struct)
  {
    var n := if struct[0] <= |packet| then struct[0] else |packet|;
    var later := ParsePosesFromPacket(packet[n..], struct[1..]);
    assert ParsePosesFromPacket(packet, struct) == [packet[..n]] + later;
    ConcatCons(packet[..n], later);
    assert Sum(struct) == struct[0] + Sum(struct[1..]);
    TakeInTurn(packet, n, struct[0], Sum(struct[1..]), Concat(ParsePosesFromPacket(packet, struct)), Concat(later));
  }

  /**
   * Taking min(s0, |packet|) items and then min(s1, what is left) of the
   * rest takes min(s0 + s1, |packet|) items.
   */
  lemma TakeInTurn<T>(packet: seq<T>, n: nat, s0: nat, s1: nat, whole: seq<T>, rest: seq<T>)
    requires n == (if s0 <= |packet| then s0 else |packet|)
    requires rest == if s1 <= |packet| - n then packet[n..][..s1] else packet[n..]
    requires whole == packet[..n] + rest
    ensures whole == if s0 + s1 <= |packet| then packet[..s0 + s1] else packet
  {
    if s0 + s1 <= |packet| {
      assert packet[..n] + packet[n..][..s1] == packet[..s0 + s1];
    } else {
      assert packet[..n] + packet[n..] == packet;
      if s1 <= |packet| - n {
        assert n == |packet| && s1 == 0;
      }
    }
  }

  /** Pose i holds min(struct[i], items left after the earlier poses) items. */
  lemma {:induction false} ParsePosesLength<T>(packet: seq<T>, struct: seq<nat>, k: nat)
    requires k < |struct|
    ensures var left := if Sum(struct[..k]) <= |packet| then |packet| - Sum(struct[..k]) else 0;
      |ParsePosesFromPacket(packet, struct)[k]| == if struct[k] <= left then struct[k] else left
    decreases k
  {
    var n := if struct[0] <= |packet| then struct[0] else |packet|;
    if k == 0 {
      assert struct[..0] == [];
    } else {
      SumPrefixStep(struct, k);
      assert struct[1..][k - 1] == struct[k];
      ParsePosesLength(packet[n..], struct[1..], k - 1);
    }
  }

  /** get_poses_shape of the parsed poses is the layout exactly when the packet holds at least Sum(struct) numbers. */
  lemma {:induction false} ParsedShape<T>(packet: seq<T>, struct: seq<nat>)
    ensures Lengths(ParsePosesFromPacket(packet, struct)) == struct <==> Sum(struct) <= |packet|
  {
    var r := ParsePosesFromPacket(packet, struct);
    if Sum(struct) <= |packet| {
      forall k | 0 <= k < |struct|
        ensures |r[k]| == struct[k]
      {
        ParsePosesLength(packet, struct, k);
        SumPrefixBound(struct, k);
      }
    } else {
      var k := FirstOverrun(packet, struct);
      ParsePosesLength(packet, struct, k);
      assert |r[k]| < struct[k];
    }
  }

  lemma {:induction false} SumPrefixBound(s: seq<nat>, k: nat)
    requires k < |s|
    ensures Sum(s[..k]) + s[k] <= Sum(s)
    decreases |s|
  {
    if k == 0 {
      assert s[..0] == [];
    } else {
      SumPrefixStep(s, k);
      assert s[1..][k - 1] == s[k];
      SumPrefixBound(s[1..], k - 1);
    }
  }

  /** Poses sent one after the other are parsed back with their own lengths. */
  lemma {:induction false} ParsePosesOfConcat<T>(poses: seq<seq<T>>)
    ensures ParsePosesFromPacket(Concat(poses), Lengths(poses)) == poses
  {
    if poses != [] {
      var c := Concat(poses);
      assert c[..|poses[0]|] == poses[0];
      assert c[|poses[0]|..] == Concat(poses[1..]);
      assert Lengths(poses)[1..] == Lengths(poses[1..]);
      ParsePosesOfConcat(poses[1..]);
      assert [poses[0]] + poses[1..] == poses;
    }
  }

  /**
   * LazyKalman's calibration bookkeeping. The filter and its noise
   * estimation are floating point and not part of this model; what is kept
   * is the countdown, the buffered observations and the batches the noise
   * estimation was run on.
   */
  class LazyKalman {
    const expectedShape: nat
    var countdown: int
    var observations: seq<seq<real>>
    var emIter: int
    /** The observation batches calibration has run on, oldest first. */
    var calibratedOn: seq<seq<seq<real>>>
    /** How many observations the running countdown will have buffered when it reaches zero. */
    ghost var target: int

    /**
     * While counting down, the buffer plus the remaining count is the target.
     * At zero the buffer may still hold observations (calibrate(0) keeps
     * them); apply then leaves them alone.
     */
    ghost predicate Valid()
      reads this
    {
      countdown != 0 ==> |observations| + countdown == target
    }

    /** The filter starts with a countdown of trainSize observations. */
    constructor(initState: seq<real>, nIter: int, trainSize: int)
      ensures expectedShape == |initState| && countdown == trainSize && emIter == nIter
      ensures observations == [] && calibratedOn == [] && target == trainSize
      ensures Valid()
    {
      expectedShape := |initState|;
      observations := [];
      calibratedOn := [];
      countdown := trainSize;
      emIter := nIter;
      target := trainSize;
    }

    /**
     * calibrate: start a countdown of n more observations. The buffer is
     * not emptied, so the batch is what is buffered plus n.
     */
    method Calibrate(n: int, iterations: int)
      modifies this
      ensures countdown == n && emIter == iterations
      ensures observations == old(observations) && calibratedOn == old(calibratedOn)
      ensures target == |observations| + n
      ensures Valid()
    {
      countdown := n;
      emIter := iterations;
      target := |observations| + n;
    }

    /**
     * apply: an observation of the wrong shape fails the assertion and
     * changes nothing; otherwise, while counting down, it is buffered, and
     * when the count reaches zero calibration runs on the buffer, which is
     * then emptied.
     */
    method Apply(obz: seq<real>) returns (ok: bool)
      requires Valid()
      modifies this
      ensures Valid() && target == old(target)
      ensures ok <==> |obz| == expectedShape
      ensures !ok || old(countdown) == 0 ==>
        countdown == old(countdown) && observations == old(observations) && calibratedOn == old(calibratedOn)
      ensures ok && old(countdown) != 0 && old(countdown) != 1 ==>
        countdown == old(countdown) - 1 && observations == old(observations) + [obz] && calibratedOn == old(calibratedOn)
      ensures ok && old(countdown) == 1 ==>
        countdown == 0 && observations == [] && calibratedOn == old(calibratedOn) + [old(observations) + [obz]] &&
        |calibratedOn[|calibratedOn| - 1]| == target
    {
      if |obz| != expectedShape {
        return false;
      }
      if countdown != 0 {
        observations := observations + [obz];
        countdown := countdown - 1;
        if countdown == 0 {
          RunCalibration();
        }
      }
      return true;
    }

    /** _run_calibration: the noise estimation runs on the buffered observations, which are then dropped. */
    method RunCalibration()
      modifies this
      ensures calibratedOn == old(calibratedOn) + [old(observations)]
      ensures observations == [] && countdown == old(countdown) && target == old(target)
    {
      calibratedOn := calibratedOn + [observations];
      observations := [];
    }
  }
}
