/**
 * Terminator framing shared by every receive loop of the system: a byte
 * buffer grows by what the socket delivers, and while it holds the
 * terminator the loop cuts off the packet in front of its first occurrence
 * (`packet, buf = buf.split(term, 1)`), keeping the tail for the next read.
 */
module Framing {
  import opened Wrappers

  /** `pat` occurs in `s` starting at position `i`. */
  predicate OccursAt<T(==)>(s: seq<T>, pat: seq<T>, i: nat)
  {
    i + |pat| <= |s| && s[i..i + |pat|] == pat
  }

  /** Python's `pat in s`. */
  predicate Contains<T(==)>(s: seq<T>, pat: seq<T>)
  {
    exists i :: 0 <= i <= |s| && OccursAt(s, pat, i)
  }

  /** The first position at or after `from` where `pat` occurs in `s`. */
  function Find<T(==)>(s: seq<T>, pat: seq<T>, from: nat): (r: Option<nat>)
    ensures r.Some? ==> from <= r.value && OccursAt(s, pat, r.value)
    ensures r.Some? ==> forall j :: from <= j < r.value ==> !OccursAt(s, pat, j)
    ensures r.None? ==> forall j :: from <= j ==> !OccursAt(s, pat, j)
    decreases |s| - from
  {
    if from + |pat| > |s| then None
    else if s[from..from + |pat|] == pat then Some(from)
    else Find(s, pat, from + 1)
  }

  /**
   * Python's `s.split(sep, 1)` guarded by `sep in s`: the part in front of
   * the first occurrence of `sep` and the part behind it, or None when `sep`
   * does not occur.
   */
  function SplitOnce<T(==)>(s: seq<T>, sep: seq<T>): (r: Option<(seq<T>, seq<T>)>)
    requires |sep| > 0
    ensures r.None? <==> !Contains(s, sep)
    ensures r.Some? ==> r.value.0 + sep + r.value.1 == s
    ensures r.Some? ==> forall j :: 0 <= j < |r.value.0| ==> !OccursAt(s, sep, j)
    ensures r.Some? ==> !Contains(r.value.0, sep)
  {
    match Find(s, sep, 0)
    case None => None
    case Some(i) =>
      var head, tail := s[..i], s[i + |sep|..];
      assert head + sep + tail == s by {
        assert s == s[..i] + s[i..i + |sep|] + s[i + |sep|..];
      }
      HeadIsFree(s, sep, i);
      Some((head, tail))
  }

  /** Each packet followed by the terminator, all concatenated. */
  function Joined<T>(packets: seq<seq<T>>, sep: seq<T>): seq<T>
  {
    if packets == [] then [] else packets[0] + sep + Joined(packets[1..], sep)
  }

  /**
   * The packets a framing loop cuts from `buf`, in order, and the tail it
   * keeps: no packet and not the tail holds the terminator
   * (FramesRebuild: the packets, each followed by the terminator, and then
   * the tail give back the buffer).
   */
  function Frames<T(==)>(buf: seq<T>, sep: seq<T>): (r: (seq<seq<T>>, seq<T>))
    requires |sep| > 0
    ensures !Contains(r.1, sep)
    ensures forall k :: 0 <= k < |r.0| ==> !Contains(r.0[k], sep)
    decreases |buf|
  {
    match Find(buf, sep, 0)
    case None => ([], buf)
    case Some(i) =>
      var head, tail := buf[..i], buf[i + |sep|..];
      assert buf == head + sep + tail by {
        assert buf == buf[..i] + buf[i..i + |sep|] + buf[i + |sep|..];
      }
      HeadIsFree(buf, sep, i);
      var rest := Frames(tail, sep);
      var packets := [head] + rest.0;
      assert packets[1..] == rest.0;
      assert forall k | 0 <= k < |packets| :: !Contains(packets[k], sep) by {
        forall k | 0 <= k < |packets|
          ensures !Contains(packets[k], sep)
        {
          if k > 0 {
            assert packets[k] == rest.0[k - 1];
          }
        }
      }
      (packets, rest.1)
  }

  /** The framing loses and invents nothing: packets and terminators, then the tail, are the buffer. */
  lemma {:induction false} FramesRebuild<T>(buf: seq<T>, sep: seq<T>)
    requires |sep| > 0
    ensures Joined(Frames(buf, sep).0, sep) + Frames(buf, sep).1 == buf
    decreases |buf|
  {
    match Find(buf, sep, 0)
    case None =>
    case Some(i) =>
      var head, tail := buf[..i], buf[i + |sep|..];
      assert buf == head + sep + tail by {
        assert buf == buf[..i] + buf[i..i + |sep|] + buf[i + |sep|..];
      }
      FramesRebuild(tail, sep);
      var packets := Frames(buf, sep).0;
      assert packets == [head] + Frames(tail, sep).0;
      assert packets[1..] == Frames(tail, sep).0;
  }

  /**
   * Framing a stream piece by piece is framing it whole: the packets cut
   * from `a`, then those cut from the kept tail followed by `b`, are the
   * packets of `a + b`, and the tails agree.
   */
  lemma {:induction false} FramesAppend<T>(a: seq<T>, b: seq<T>, sep: seq<T>)
    requires |sep| > 0
    ensures var fa := Frames(a, sep); var fb := Frames(fa.1 + b, sep);
      Frames(a + b, sep) == (fa.0 + fb.0, fb.1)
    decreases |a|
  {
    match Find(a, sep, 0)
    case None =>
      FramesAppendNone(a, b, sep);
    case Some(i) =>
      var a' := a[i + |sep|..];
      assert |a'| < |a|;
      FramesAppend(a', b, sep);
      FramesAppendStep(a, b, sep, i);
  }

  lemma {:induction false} FramesAppendNone<T>(a: seq<T>, b: seq<T>, sep: seq<T>)
    requires |sep| > 0 && Find(a, sep, 0).None?
    ensures var fa := Frames(a, sep); var fb := Frames(fa.1 + b, sep);
      Frames(a + b, sep) == (fa.0 + fb.0, fb.1)
  {
    FramesNone(a, sep);
    assert [] + Frames(a + b, sep).0 == Frames(a + b, sep).0;
  }

  /** FramesAppend for a first terminator at i, from FramesAppend for what follows it. */
  lemma {:induction false} FramesAppendStep<T>(a: seq<T>, b: seq<T>, sep: seq<T>, i: nat)
    requires |sep| > 0 && Find(a, sep, 0) == Some(i)
    requires var f := Frames(a[i + |sep|..], sep); var g := Frames(f.1 + b, sep);
      Frames(a[i + |sep|..] + b, sep) == (f.0 + g.0, g.1)
    ensures var fa := Frames(a, sep); var fb := Frames(fa.1 + b, sep);
      Frames(a + b, sep) == (fa.0 + fb.0, fb.1)
  {
    var a', ab := a[i + |sep|..], a + b;
    FramesAt(a, sep, i);
    FindExtend(a, b, sep, i);
    FramesAt(ab, sep, i);
    SliceOfAppend(a, b, i, i + |sep|);
    CombineFrames(a[..i], Frames(a', sep), Frames(Frames(a', sep).1 + b, sep), Frames(a, sep), Frames(ab, sep), Frames(a' + b, sep));
  }

  /** The bookkeeping of FramesAppendStep on the framing results, kept apart from their definitions. */
  lemma CombineFrames<T>(head: seq<T>, f: (seq<seq<T>>, seq<T>), g: (seq<seq<T>>, seq<T>),
                         fa: (seq<seq<T>>, seq<T>), fab: (seq<seq<T>>, seq<T>), h: (seq<seq<T>>, seq<T>))
    requires fa == ([head] + f.0, f.1) && h == (f.0 + g.0, g.1) && fab == ([head] + h.0, h.1)
    ensures fab == (fa.0 + g.0, g.1)
  {
    assert [head] + f.0 + g.0 == [head] + (f.0 + g.0);
  }

  lemma SliceOfAppend<T>(a: seq<T>, b: seq<T>, i: nat, j: nat)
    requires i <= j <= |a|
    ensures (a + b)[..i] == a[..i] && (a + b)[j..] == a[j..] + b
  {
  }

  lemma FramesNone<T>(buf: seq<T>, sep: seq<T>)
    requires |sep| > 0 && Find(buf, sep, 0).None?
    ensures Frames(buf, sep) == ([], buf)
  {
  }

  /** Splitting a buffer once on the terminator is the first step of its framing. */
  lemma FramesStep<T>(buf: seq<T>, sep: seq<T>)
    requires |sep| > 0 && Contains(buf, sep)
    ensures var s := SplitOnce(buf, sep).value;
      Frames(buf, sep) == ([s.0] + Frames(s.1, sep).0, Frames(s.1, sep).1)
  {
  }

  /**
   * Part way through cutting packets off `whole`: `done` were cut off and
   * `buf` is what is left, so framing `buf` gives the rest.
   */
  ghost predicate Draining<T>(whole: seq<T>, done: seq<seq<T>>, buf: seq<T>, sep: seq<T>)
    requires |sep| > 0
  {
    done + Frames(buf, sep).0 == Frames(whole, sep).0 && Frames(buf, sep).1 == Frames(whole, sep).1
  }

  /** Cutting one more packet off keeps the draining relation, and the buffer shrinks. */
  lemma DrainStep<T>(whole: seq<T>, done: seq<seq<T>>, buf: seq<T>, sep: seq<T>)
    requires |sep| > 0 && Contains(buf, sep) && Draining(whole, done, buf, sep)
    ensures var s := SplitOnce(buf, sep).value;
      Draining(whole, done + [s.0], s.1, sep) && |s.1| < |buf|
  {
    var s := SplitOnce(buf, sep).value;
    FramesStep(buf, sep);
    AppendAssoc(done, [s.0], Frames(s.1, sep).0);
  }

  /** When no terminator is left, the packets cut off are all there are and the buffer is the tail. */
  lemma DrainDone<T>(whole: seq<T>, done: seq<seq<T>>, buf: seq<T>, sep: seq<T>)
    requires |sep| > 0 && !Contains(buf, sep) && Draining(whole, done, buf, sep)
    ensures done == Frames(whole, sep).0 && buf == Frames(whole, sep).1
  {
    FramesDone(buf, sep);
    AppendEmpty(done);
  }

  /** Before anything is cut off, the whole buffer is left. */
  lemma DrainStart<T>(whole: seq<T>, sep: seq<T>)
    requires |sep| > 0
    ensures Draining(whole, [], whole, sep)
  {
    assert [] + Frames(whole, sep).0 == Frames(whole, sep).0;
  }

  /** A buffer without the terminator frames to no packet and itself as the tail. */
  lemma FramesDone<T>(buf: seq<T>, sep: seq<T>)
    requires |sep| > 0 && !Contains(buf, sep)
    ensures Frames(buf, sep) == ([], buf)
  {
    var r := Find(buf, sep, 0);
    assert r.Some? ==> OccursAt(buf, sep, r.value);
  }

  /** One step of the framing: the packet in front of the first terminator, then the framing of the rest. */
  lemma FramesAt<T>(buf: seq<T>, sep: seq<T>, i: nat)
    requires |sep| > 0 && Find(buf, sep, 0) == Some(i)
    ensures var rest := Frames(buf[i + |sep|..], sep);
      Frames(buf, sep) == ([buf[..i]] + rest.0, rest.1)
  {
  }

  /** The first occurrence in `s` is still the first once something is appended. */
  lemma FindExtend<T>(s: seq<T>, t: seq<T>, pat: seq<T>, i: nat)
    requires Find(s, pat, 0) == Some(i)
    ensures Find(s + t, pat, 0) == Some(i)
  {
    var st := s + t;
    assert st[i..i + |pat|] == s[i..i + |pat|];
    forall j | 0 <= j < i
      ensures !OccursAt(st, pat, j)
    {
      assert st[j..j + |pat|] == s[j..j + |pat|];
      assert !OccursAt(s, pat, j);
    }
    FindFirst(st, pat, i);
  }

  /** An occurrence with none before it is what Find returns. */
  lemma FindFirst<T>(s: seq<T>, pat: seq<T>, i: nat)
    requires OccursAt(s, pat, i) && forall j :: 0 <= j < i ==> !OccursAt(s, pat, j)
    ensures Find(s, pat, 0) == Some(i)
  {
    var r := Find(s, pat, 0);
    assert r.Some? && r.value == i;
  }

  /** What lies in front of the first occurrence of `sep` does not hold `sep`. */
  lemma HeadIsFree<T>(s: seq<T>, sep: seq<T>, i: nat)
    requires |sep| > 0 && Find(s, sep, 0) == Some(i)
    ensures !Contains(s[..i], sep)
  {
    var head := s[..i];
    forall j: nat | j <= i
      ensures !OccursAt(head, sep, j)
    {
      if j + |sep| <= i {
        assert head[j..j + |sep|] == s[j..j + |sep|];
        assert !OccursAt(s, sep, j);
      }
    }
  }

  /** Python's `s.split(sep)`: every piece between terminators, the last one included. */
  function SplitAll<T(==)>(s: seq<T>, sep: seq<T>): (r: seq<seq<T>>)
    requires |sep| > 0
    ensures |r| >= 1
    ensures Join(r, sep) == s
    ensures forall k :: 0 <= k < |r| ==> !Contains(r[k], sep)
  {
    var f := Frames(s, sep);
    FramesRebuild(s, sep);
    JoinedThenLast(f.0, f.1, sep);
    f.0 + [f.1]
  }

  /** Python's `sep.join(pieces)`. */
  function Join<T>(pieces: seq<seq<T>>, sep: seq<T>): seq<T>
  {
    if pieces == [] then []
    else if |pieces| == 1 then pieces[0]
    else pieces[0] + sep + Join(pieces[1..], sep)
  }

  lemma {:induction false} JoinedThenLast<T>(ps: seq<seq<T>>, last: seq<T>, sep: seq<T>)
    ensures Join(ps + [last], sep) == Joined(ps, sep) + last
    decreases |ps|
  {
    if ps != [] {
      assert (ps + [last])[1..] == ps[1..] + [last];
      JoinedThenLast(ps[1..], last, sep);
    }
  }

  /** No proper prefix of `sep` is also a suffix of it (true of "\n" and of "\t\r\n"). */
  predicate BorderFree<T(==)>(sep: seq<T>)
  {
    forall m :: 0 < m < |sep| ==> sep[..m] != sep[|sep| - m..]
  }

  /**
   * With a border-free terminator the framing is the only way to read the
   * buffer as packets free of the terminator, each followed by it, and a
   * tail free of it: whatever packets a peer sends, the loop recovers them.
   */
  lemma {:induction false} FramesUnique<T>(ps: seq<seq<T>>, tail: seq<T>, sep: seq<T>)
    requires |sep| > 0 && BorderFree(sep)
    requires forall k :: 0 <= k < |ps| ==> !Contains(ps[k], sep)
    requires !Contains(tail, sep)
    ensures Frames(Joined(ps, sep) + tail, sep) == (ps, tail)
    decreases |ps|
  {
    var buf := Joined(ps, sep) + tail;
    if ps == [] {
      assert buf == tail;
    } else {
      var p := ps[0];
      var rest := Joined(ps[1..], sep) + tail;
      assert buf == p + sep + rest;
      FirstOccurrenceAfterPacket(p, sep, rest);
      assert SplitOnce(buf, sep) == Some((p, rest)) by {
        assert buf[..|p|] == p;
        assert buf[|p| + |sep|..] == rest;
      }
      FramesUnique(ps[1..], tail, sep);
      assert [p] + ps[1..] == ps;
    }
  }

  /** In `p + sep + rest` with `p` free of `sep`, the first occurrence of `sep` is right after `p`. */
  lemma FirstOccurrenceAfterPacket<T>(p: seq<T>, sep: seq<T>, rest: seq<T>)
    requires |sep| > 0 && BorderFree(sep) && !Contains(p, sep)
    ensures Find(p + sep + rest, sep, 0) == Some(|p|)
  {
    var s := p + sep + rest;
    assert OccursAt(s, sep, |p|) by {
      assert s[|p|..|p| + |sep|] == sep;
    }
    forall j | 0 <= j < |p|
      ensures !OccursAt(s, sep, j)
    {
      if j + |sep| <= |p| {
        assert s[j..j + |sep|] == p[j..j + |sep|];
        assert !OccursAt(p, sep, j);
      } else {
        var m := j + |sep| - |p|;
        assert sep[..m] != sep[|sep| - m..];
        assert |sep| - m == |p| - j;
        StraddleIsBorder(p, sep, rest, j);
      }
    }
    var r := Find(s, sep, 0);
    assert r.Some? && r.value == |p|;
  }

  /** An occurrence of `sep` that straddles the end of `p` in `p + sep + rest` is a border of `sep`. */
  lemma StraddleIsBorder<T>(p: seq<T>, sep: seq<T>, rest: seq<T>, j: nat)
    requires j < |p| < j + |sep|
    ensures OccursAt(p + sep + rest, sep, j) ==> sep[..j + |sep| - |p|] == sep[|p| - j..]
  {
    var s, m := p + sep + rest, j + |sep| - |p|;
    if OccursAt(s, sep, j) {
      forall t | 0 <= t < m
        ensures sep[..m][t] == sep[|p| - j..][t]
      {
        assert s[|p| + t] == sep[t];
        assert s[j + (|p| - j) + t] == sep[|p| - j + t];
      }
    }
  }

  /** Python's `sep.join(...).split(sep)` gives the pieces back when none holds the terminator. */
  lemma SplitAllJoin<T>(pieces: seq<seq<T>>, sep: seq<T>)
    requires |sep| > 0 && BorderFree(sep) && |pieces| >= 1
    requires forall k :: 0 <= k < |pieces| ==> !Contains(pieces[k], sep)
    ensures SplitAll(Join(pieces, sep), sep) == pieces
  {
    var n := |pieces| - 1;
    assert pieces == pieces[..n] + [pieces[n]];
    JoinedThenLast(pieces[..n], pieces[n], sep);
    FramesUnique(pieces[..n], pieces[n], sep);
  }

  /*
   * Sequence facts stated for any element type: proved on strings directly
   * they make the solver compare the strings character by character.
   */
  lemma PrefixOfAppend<T>(a: seq<T>, x: T)
    ensures (a + [x])[..|a|] == a
  {
  }

  lemma TakeOneMore<T>(s: seq<T>, i: nat)
    requires i < |s|
    ensures s[..i + 1] == s[..i] + [s[i]] && s[..i + 1][..i] == s[..i]
  {
  }

  lemma AppendEmpty<T>(a: seq<T>)
    ensures a + [] == a
  {
  }

  lemma AppendAssoc<T>(a: seq<T>, b: seq<T>, c: seq<T>)
    ensures a + b + c == a + (b + c)
  {
  }

  lemma DropOneMore<T>(s: seq<T>, i: nat)
    requires i < |s|
    ensures s[i + 1..] == s[i..][1..] && s[i] == s[i..][0]
  {
  }

  lemma ConsParts<T>(x: T, s: seq<T>)
    ensures ([x] + s)[0] == x && ([x] + s)[1..] == s
  {
  }
}
