/**
 * The string operations the packet parsers rely on: ASCII white space and
 * lower-casing, Python's `str.strip(chars)` and `str.split(sep)`, C++'s
 * `istream >> std::string` tokenizer, and the "shares a character" test
 * used to reject packets holding letters.
 */
module Text {
  import opened Framing

  /** White space for C's isspace and for Python's str.split()/float() on ASCII text. */
  predicate IsSpace(c: char)
  {
    c == ' ' || c == '\t' || c == '\n' || c == '\r' || c == '\U{000B}' || c == '\U{000C}'
  }

  /** Python's `str.lower()` on ASCII letters; other characters are kept. */
  function Lower(s: string): (r: string)
    ensures |r| == |s|
    ensures forall k :: 0 <= k < |s| && 'A' <= s[k] <= 'Z' ==> r[k] as int == s[k] as int + 32
    ensures forall k :: 0 <= k < |s| && !('A' <= s[k] <= 'Z') ==> r[k] == s[k]
  {
    seq(|s|, k requires 0 <= k < |s| =>
      if 'A' <= s[k] <= 'Z' then (s[k] as int + 32) as char else s[k])
  }

  /** Some character of `b` occurs in `a` (both util.h and utilz.py define this test). */
  predicate SharesCharacters(a: string, b: string)
  {
    exists k :: 0 <= k < |b| && b[k] in a
  }

  /** Python's `s.lstrip(chars)`: drop the leading characters that are in `chars`. */
  function LStrip(s: string, chars: set<char>): (r: string)
    ensures |r| <= |s| && r == s[|s| - |r|..]
    ensures r == [] || r[0] !in chars
    ensures forall k :: 0 <= k < |s| - |r| ==> s[k] in chars
  {
    if s != [] && s[0] in chars then LStrip(s[1..], chars) else s
  }

  /** Python's `s.rstrip(chars)`: drop the trailing characters that are in `chars`. */
  function RStrip(s: string, chars: set<char>): (r: string)
    ensures |r| <= |s| && r == s[..|r|]
    ensures r == [] || r[|r| - 1] !in chars
    ensures forall k :: |r| <= k < |s| ==> s[k] in chars
  {
    if s != [] && s[|s| - 1] in chars then RStrip(s[..|s| - 1], chars) else s
  }

  /** Python's `s.strip(chars)`. */
  function Strip(s: string, chars: set<char>): string
  {
    RStrip(LStrip(s, chars), chars)
  }

  /** Length of the run of non-space characters at the front of `s`. */
  function WordLength(s: string): (n: nat)
    ensures n <= |s|
    ensures forall k :: 0 <= k < n ==> !IsSpace(s[k])
    ensures n == |s| || IsSpace(s[n])
  {
    if s == [] || IsSpace(s[0]) then 0 else 1 + WordLength(s[1..])
  }

  /**
   * The words `istream >> std::string` extracts one after the other: the
   * maximal runs of non-space characters, in order.
   */
  function SplitWhitespace(s: string): (r: seq<string>)
    ensures forall k :: 0 <= k < |r| ==> r[k] != [] && NoSpace(r[k])
    decreases |s|
  {
    if s == [] then []
    else if IsSpace(s[0]) then SplitWhitespace(s[1..])
    else
      var n := WordLength(s);
      var rest := SplitWhitespace(s[n..]);
      assert forall k :: 1 <= k < |[s[..n]] + rest| ==> ([s[..n]] + rest)[k] == rest[k - 1];
      [s[..n]] + rest
  }

  predicate NoSpace(w: string)
  {
    forall k :: 0 <= k < |w| ==> !IsSpace(w[k])
  }

  /**
   * Words joined with single spaces come back out of the white-space
   * tokenizer unchanged: what a poser writes with `" ".join(...)` the C++
   * receiver reads back word for word.
   */
  lemma {:induction false} SplitWhitespaceOfJoin(words: seq<string>)
    requires forall k :: 0 <= k < |words| ==> words[k] != [] && NoSpace(words[k])
    ensures SplitWhitespace(Join(words, " ")) == words
    decreases |words|
  {
    if |words| == 1 {
      SplitWhitespaceOfWord(words[0], []);
      assert words[0] + [] == words[0];
    } else if |words| > 1 {
      var w := words[0];
      var rest := Join(words[1..], " ");
      SplitWhitespaceOfWord(w, " " + rest);
      assert Join(words, " ") == w + (" " + rest);
      assert (" " + rest)[1..] == rest;
      SplitWhitespaceOfJoin(words[1..]);
      assert [w] + words[1..] == words;
    }
  }

  /** A word followed by nothing or by a space is extracted whole. */
  lemma SplitWhitespaceOfWord(w: string, after: string)
    requires w != [] && NoSpace(w)
    requires after == [] || IsSpace(after[0])
    ensures SplitWhitespace(w + after) == [w] + SplitWhitespace(after)
  {
    var s := w + after;
    var n := WordLength(s);
    assert forall k :: 0 <= k < |w| ==> s[k] == w[k];
    assert |after| > 0 ==> s[|w|] == after[0];
    assert n == |w|;
    assert s[..n] == w && s[n..] == after;
  }
}
