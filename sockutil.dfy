/**
 * The C++ driver's packet helpers (driver/src/ref/util.h): cutting a flat
 * pose vector into per-device chunks, measuring chunks, removing a message
 * from the front of the receive buffer, the letter test and the
 * token-to-number conversion.
 */
module SockUtil {
  import opened Wrappers
  import opened Framing
  import opened Text
  import opened Numbers

  function Sum(s: seq<nat>): nat
  {
    if s == [] then 0 else s[0] + Sum(s[1..])
  }

  function Concat<T>(chunks: seq<seq<T>>): seq<T>
  {
    if chunks == [] then [] else chunks[0] + Concat(chunks[1..])
  }

  function Lengths<T>(chunks: seq<seq<T>>): (r: seq<nat>)
    ensures |r| == |chunks| && forall k :: 0 <= k < |r| ==> r[k] == |chunks[k]|
  {
    seq(|chunks|, k requires 0 <= k < |chunks| => |chunks[k]|)
  }

  /**
   * The chunks split_pk produces: one chunk of each size in turn, taken at a
   * running offset; the first size that overruns the vector takes the whole
   * remaining tail instead, and nothing follows it.
   */
  function SplitPkSpec<T>(arr: seq<T>, sizes: seq<nat>): seq<seq<T>>
  {
    if sizes == [] then []
    else if sizes[0] <= |arr| then [arr[..sizes[0]]] + SplitPkSpec(arr[sizes[0]..], sizes[1..])
    else [arr]
  }

  /** split_pk: the loop with the running offset `oof`. */
  method SplitPk<T>(arr: seq<T>, inxs: seq<nat>) returns (out: seq<seq<T>>)
    ensures out == SplitPkSpec(arr, inxs)
  {
    out := [];
    var oof: nat := 0;
    var i := 0;
    while i < |inxs|
      invariant 0 <= i <= |inxs| && oof <= |arr|
      invariant out + SplitPkSpec(arr[oof..], inxs[i..]) == SplitPkSpec(arr, inxs)
    {
      if oof + inxs[i] <= |arr| {
        assert arr[oof..][..inxs[i]] == arr[oof..oof + inxs[i]];
        assert arr[oof..][inxs[i]..] == arr[oof + inxs[i]..];
        assert inxs[i..][1..] == inxs[i + 1..];
        out := out + [arr[oof..oof + inxs[i]]];
        oof := oof + inxs[i];
      } else {
        out := out + [arr[oof..]];
        break;
      }
      i := i + 1;
    }
  }

  /** The chunks are contiguous and in order: together they are the vector up to the last size, or all of it on an overrun. */
  lemma {:induction false} SplitPkContiguous<T>(arr: seq<T>, sizes: seq<nat>)
    ensures Concat(SplitPkSpec(arr, sizes)) == if Sum(sizes) <= |arr| then arr[..Sum(sizes)] else arr
  {
    if sizes != [] && sizes[0] <= |arr| {
      SplitPkContiguous(arr[sizes[0]..], sizes[1..]);
      SplitPkContiguousStep(arr, sizes);
    } else if sizes != [] {
      assert SplitPkSpec(arr, sizes) == [arr];
      assert Concat([arr]) == arr + Concat([arr][1..]);
    }
  }

  /** SplitPkContiguous for a first chunk that fits, from SplitPkContiguous for what follows it. */
  lemma SplitPkContiguousStep<T>(arr: seq<T>, sizes: seq<nat>)
    requires sizes != [] && sizes[0] <= |arr|
    requires var rest := arr[sizes[0]..];
      Concat(SplitPkSpec(rest, sizes[1..])) == if Sum(sizes[1..]) <= |rest| then rest[..Sum(sizes[1..])] else rest
    ensures Concat(SplitPkSpec(arr, sizes)) == if Sum(sizes) <= |arr| then arr[..Sum(sizes)] else arr
  {
    var rest := arr[sizes[0]..];
    var later := SplitPkSpec(rest, sizes[1..]);
    assert SplitPkSpec(arr, sizes) == [arr[..sizes[0]]] + later;
    assert Sum(sizes) == sizes[0] + Sum(sizes[1..]);
    ConcatCons(arr[..sizes[0]], later);
    PrefixThenSuffix(arr, sizes[0], Sum(sizes[1..]));
  }

  lemma ConcatCons<T>(x: seq<T>, cs: seq<seq<T>>)
    ensures Concat([x] + cs) == x + Concat(cs)
  {
    assert ([x] + cs)[1..] == cs;
  }

  /** The first a elements followed by what comes after them, cut to n, or all of it. */
  lemma PrefixThenSuffix<T>(s: seq<T>, a: nat, n: nat)
    requires a <= |s|
    ensures a + n <= |s| ==> s[..a] + s[a..][..n] == s[..a + n]
    ensures s[..a] + s[a..] == s
  {
  }

  /** When the sizes fit, there is one chunk per size and chunk k has exactly sizes[k] elements, taken at offset Sum(sizes[..k]). */
  lemma SplitPkFits<T>(arr: seq<T>, sizes: seq<nat>)
    requires Sum(sizes) <= |arr|
    ensures var out := SplitPkSpec(arr, sizes);
      |out| == |sizes| &&
      forall k :: 0 <= k < |sizes| ==>
        Sum(sizes[..k]) + sizes[k] <= |arr| && out[k] == arr[Sum(sizes[..k])..Sum(sizes[..k]) + sizes[k]]
  {
    SplitPkLength(arr, sizes);
    forall k | 0 <= k < |sizes|
      ensures Sum(sizes[..k]) + sizes[k] <= |arr| && SplitPkSpec(arr, sizes)[k] == arr[Sum(sizes[..k])..Sum(sizes[..k]) + sizes[k]]
    {
      SplitPkChunk(arr, sizes, k);
    }
  }

  lemma {:induction false} SplitPkLength<T>(arr: seq<T>, sizes: seq<nat>)
    requires Sum(sizes) <= |arr|
    ensures |SplitPkSpec(arr, sizes)| == |sizes|
  {
    if sizes != [] {
      SplitPkLength(arr[sizes[0]..], sizes[1..]);
    }
  }

  lemma {:induction false} SplitPkChunk<T>(arr: seq<T>, sizes: seq<nat>, k: nat)
    requires Sum(sizes) <= |arr| && k < |sizes|
    ensures Sum(sizes[..k]) + sizes[k] <= |arr| && |SplitPkSpec(arr, sizes)| > k
    ensures SplitPkSpec(arr, sizes)[k] == arr[Sum(sizes[..k])..Sum(sizes[..k]) + sizes[k]]
    decreases k
  {
    SplitPkFirst(arr, sizes);
    if k > 0 {
      SplitPkChunk(arr[sizes[0]..], sizes[1..], k - 1);
      SplitPkNext(arr, sizes, k);
    }
  }

  /** The first chunk has the first size, and the rest is the split of what follows it. */
  lemma SplitPkFirst<T>(arr: seq<T>, sizes: seq<nat>)
    requires Sum(sizes) <= |arr| && sizes != []
    ensures Sum(sizes) == sizes[0] + Sum(sizes[1..]) && sizes[0] <= |arr|
    ensures SplitPkSpec(arr, sizes) == [arr[..sizes[0]]] + SplitPkSpec(arr[sizes[0]..], sizes[1..])
    ensures Sum(sizes[..0]) == 0
  {
    assert sizes[..0] == [];
  }

  /** Chunk k of the whole is chunk k - 1 of what follows the first chunk, moved by the first size. */
  lemma SplitPkNext<T>(arr: seq<T>, sizes: seq<nat>, k: nat)
    requires 0 < k < |sizes| && sizes[0] <= |arr|
    requires SplitPkSpec(arr, sizes) == [arr[..sizes[0]]] + SplitPkSpec(arr[sizes[0]..], sizes[1..])
    requires var rest, s' := arr[sizes[0]..], Sum(sizes[1..][..k - 1]);
      s' + sizes[1..][k - 1] <= |rest| && |SplitPkSpec(rest, sizes[1..])| > k - 1 &&
      SplitPkSpec(rest, sizes[1..])[k - 1] == rest[s'..s' + sizes[1..][k - 1]]
    ensures Sum(sizes[..k]) + sizes[k] <= |arr| && |SplitPkSpec(arr, sizes)| > k
    ensures SplitPkSpec(arr, sizes)[k] == arr[Sum(sizes[..k])..Sum(sizes[..k]) + sizes[k]]
  {
    var s' := Sum(sizes[1..][..k - 1]);
    SumPrefixStep(sizes, k);
    assert sizes[1..][k - 1] == sizes[k];
    SliceOfSuffix(arr, sizes[0], s', s' + sizes[k]);
  }

  lemma SliceOfSuffix<T>(s: seq<T>, a: nat, i: nat, j: nat)
    requires a <= |s| && i <= j <= |s| - a
    ensures s[a..][i..j] == s[a + i..a + j]
  {
  }

  lemma SumPrefixStep(sizes: seq<nat>, k: nat)
    requires 0 < k <= |sizes|
    ensures Sum(sizes[..k]) == sizes[0] + Sum(sizes[1..][..k - 1])
  {
    assert sizes[..k][1..] == sizes[1..][..k - 1];
  }

  /**
   * When a size overruns, the chunks before it have their sizes, the last
   * chunk is the remaining tail, and splitting stops there.
   */
  lemma {:induction false} SplitPkOverrun<T>(arr: seq<T>, sizes: seq<nat>, k: nat)
    requires k < |sizes| && Sum(sizes[..k]) <= |arr| < Sum(sizes[..k]) + sizes[k]
    ensures var out := SplitPkSpec(arr, sizes);
      |out| == k + 1 && out[k] == arr[Sum(sizes[..k])..]
    decreases k
  {
    if k == 0 {
      assert sizes[..0] == [];
    } else {
      SumPrefixStep(sizes, k);
      assert sizes[1..][k - 1] == sizes[k];
      SplitPkOverrun(arr[sizes[0]..], sizes[1..], k - 1);
    }
  }

  /**
   * Cutting the concatenation of chunks at the chunks' own lengths gives
   * the chunks back: a packet built by concatenating every device's values
   * is split back into exactly those values.
   */
  lemma {:induction false} SplitPkOfConcat<T>(chunks: seq<seq<T>>)
    ensures SplitPkSpec(Concat(chunks), Lengths(chunks)) == chunks
  {
    if chunks != [] {
      var c := Concat(chunks);
      assert c[..|chunks[0]|] == chunks[0];
      assert c[|chunks[0]|..] == Concat(chunks[1..]);
      assert Lengths(chunks)[1..] == Lengths(chunks[1..]);
      SplitPkOfConcat(chunks[1..]);
      assert [chunks[0]] + chunks[1..] == chunks;
    }
  }

  /** get_poses_shape: the length of every chunk, in order. */
  method GetPosesShape<T>(arr: seq<seq<T>>) returns (out: seq<nat>)
    ensures out == Lengths(arr)
  {
    out := [];
    var i := 0;
    while i < |arr|
      invariant 0 <= i <= |arr| && out == Lengths(arr[..i])
    {
      assert arr[..i + 1] == arr[..i] + [arr[i]];
      out := out + [|arr[i]|];
      i := i + 1;
    }
    assert arr[..i] == arr;
  }

  /** The shape of split chunks is the size list exactly when the sizes fit. */
  lemma ShapeOfSplitPk<T>(arr: seq<T>, sizes: seq<nat>)
    ensures Lengths(SplitPkSpec(arr, sizes)) == sizes <==> Sum(sizes) <= |arr|
  {
    if Sum(sizes) <= |arr| {
      SplitPkFits(arr, sizes);
    } else {
      var k := FirstOverrun(arr, sizes);
      SplitPkOverrun(arr, sizes, k);
      var out := SplitPkSpec(arr, sizes);
      assert |out[k]| == |arr| - Sum(sizes[..k]) < sizes[k];
    }
  }

  /** The index of the first size whose chunk does not fit. */
  lemma {:induction false} FirstOverrun<T>(arr: seq<T>, sizes: seq<nat>) returns (k: nat)
    requires Sum(sizes) > |arr|
    ensures k < |sizes| && Sum(sizes[..k]) <= |arr| < Sum(sizes[..k]) + sizes[k]
  {
    k := 0;
    assert sizes[..0] == [];
    assert sizes[..|sizes|] == sizes;
    while Sum(sizes[..k]) + sizes[k] <= |arr|
      invariant k < |sizes| && Sum(sizes[..k]) <= |arr|
      decreases |sizes| - k
    {
      SumPrefixAppend(sizes, k);
      k := k + 1;
    }
  }

  lemma {:induction false} SumPrefixAppend(sizes: seq<nat>, k: nat)
    requires k < |sizes|
    ensures Sum(sizes[..k + 1]) == Sum(sizes[..k]) + sizes[k]
  {
    SumAppend(sizes[..k], sizes[k]);
    assert sizes[..k] + [sizes[k]] == sizes[..k + 1];
  }

  lemma {:induction false} SumAppend(s: seq<nat>, x: nat)
    ensures Sum(s + [x]) == Sum(s) + x
  {
    if s != [] {
      assert (s + [x])[1..] == s[1..] + [x];
      SumAppend(s[1..], x);
    }
  }

  /**
   * remove_message_from_buffer: memmove the bytes behind the message to the
   * front of the buffer; the new byte count is returned (the source updates
   * it through a reference).
   */
  method RemoveMessageFromBuffer(buf: array<char>, numbytes: int, msglen: int) returns (newNumbytes: int)
    requires 0 <= msglen <= numbytes <= buf.Length
    modifies buf
    ensures newNumbytes == numbytes - msglen
    ensures buf[..newNumbytes] == old(buf[msglen..numbytes])
    ensures buf[newNumbytes..] == old(buf[newNumbytes..])
  {
    var n := numbytes - msglen;
    var k := 0;
    while k < n
      invariant 0 <= k <= n
      invariant buf[..k] == old(buf[msglen..msglen + k])
      invariant buf[k..] == old(buf[k..])
    {
      buf[k] := buf[k + msglen];
      k := k + 1;
    }
    newNumbytes := n;
  }

  /** strings_share_characters: true iff some character of b occurs in a. */
  method StringsShareCharacters(a: string, b: string) returns (r: bool)
    ensures r <==> SharesCharacters(a, b)
  {
    var k := 0;
    while k < |b|
      invariant 0 <= k <= |b|
      invariant forall j :: 0 <= j < k ==> b[j] !in a
    {
      if b[k] in a {
        return true;
      }
      k := k + 1;
    }
    return false;
  }

  predicate AllRead(tokens: seq<string>)
  {
    forall k :: 0 <= k < |tokens| ==> Stod(tokens[k]).Some?
  }

  /**
   * split_to_number for doubles: every token through std::stod; if any of
   * them throws, the whole result is {0, 0}.
   */
  function SplitToNumber(tokens: seq<string>): (r: seq<real>)
    ensures !AllRead(tokens) ==> r == [0.0, 0.0]
    ensures AllRead(tokens) ==> |r| == |tokens| && forall k :: 0 <= k < |r| ==> Some(r[k]) == Stod(tokens[k])
  {
    if AllRead(tokens) then seq(|tokens|, k requires 0 <= k < |tokens| => Stod(tokens[k]).value)
    else [0.0, 0.0]
  }

  /** Written naturals separated by spaces are read back as their values. */
  lemma SplitToNumberOfWritten(ns: seq<nat>)
    requires |ns| > 0
    ensures SplitToNumber(SplitWhitespace(Join(Written(ns), " "))) == seq(|ns|, k requires 0 <= k < |ns| => ns[k] as real)
  {
    var words := Written(ns);
    assert SplitWhitespace(Join(words, " ")) == words by {
      WrittenWords(ns);
      SplitWhitespaceOfJoin(words);
    }
    WrittenWordsRead(ns);
    ReadAll(words, seq(|ns|, k requires 0 <= k < |ns| => ns[k] as real));
  }

  /** Tokens that all read as numbers convert to those numbers. */
  lemma ReadAll(tokens: seq<string>, values: seq<real>)
    requires |tokens| == |values| && forall k :: 0 <= k < |tokens| ==> Stod(tokens[k]) == Some(values[k])
    ensures SplitToNumber(tokens) == values
  {
  }
}
