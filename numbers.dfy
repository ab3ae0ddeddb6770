/**
 * Decimal number reading as the two languages of the system do it.
 * Python's `float(token)` accepts a token only when, white space around it
 * aside, the whole of it is a decimal number; C++'s `std::stod` skips
 * leading white space and reads the longest prefix that is a decimal
 * number, failing (throwing) only when there is none.
 */
module Numbers {
  import opened Wrappers
  import opened Text

  predicate IsDigit(c: char)
  {
    '0' <= c <= '9'
  }

  predicate AllDigits(d: string)
  {
    forall k :: 0 <= k < |d| ==> IsDigit(d[k])
  }

  /** Number of consecutive digits of `s` from position `i` on. */
  function DigitRun(s: string, i: nat): (n: nat)
    requires i <= |s|
    ensures i + n <= |s|
    ensures forall k :: i <= k < i + n ==> IsDigit(s[k])
    ensures i + n == |s| || !IsDigit(s[i + n])
    decreases |s| - i
  {
    if i < |s| && IsDigit(s[i]) then 1 + DigitRun(s, i + 1) else 0
  }

  /** The value of a run of decimal digits, most significant first. */
  function DigitsValue(d: string): nat
    requires AllDigits(d)
  {
    if d == [] then 0 else 10 * DigitsValue(d[..|d| - 1]) + (d[|d| - 1] as int - '0' as int)
  }

  function Pow10(n: nat): (p: nat)
    ensures p >= 1
  {
    if n == 0 then 1 else 10 * Pow10(n - 1)
  }

  /** A decimal number read from the front of a string: its value and how many characters it took. */
  datatype Scan = Scan(value: real, length: nat)

  /**
   * The exponent part `e[+-]digits` at position `i`, as (exponent, length);
   * (0, 0) when there is none (an `e` without digits is not part of the number).
   */
  function ScanExponent(s: string, i: nat): (r: (int, nat))
    requires i <= |s|
    ensures i + r.1 <= |s|
    ensures r.1 == 0 ==> r.0 == 0
  {
    if i < |s| && (s[i] == 'e' || s[i] == 'E') then
      var signLen := if i + 1 < |s| && (s[i + 1] == '+' || s[i + 1] == '-') then 1 else 0;
      var n := DigitRun(s, i + 1 + signLen);
      if n == 0 then (0, 0)
      else
        var e: int := DigitsValue(s[i + 1 + signLen..i + 1 + signLen + n]);
        (if signLen == 1 && s[i + 1] == '-' then -e else e, 1 + signLen + n)
    else (0, 0)
  }

  /**
   * The unsigned number `digits[.digits][e[+-]digits]` or
   * `.digits[e[+-]digits]` at position `i`, as long as it goes; the length
   * counts from `i`.
   */
  function ScanUnsigned(s: string, i: nat): (r: Option<Scan>)
    requires i <= |s|
    ensures r.Some? ==> 0 < r.value.length <= |s| - i
  {
    var intLen := DigitRun(s, i);
    var dot := i + intLen;
    var hasDot := dot < |s| && s[dot] == '.';
    var fracStart := if hasDot then dot + 1 else dot;
    var fracLen := if hasDot then DigitRun(s, fracStart) else 0;
    if intLen + fracLen == 0 then None
    else
      var mantEnd := fracStart + fracLen;
      var mantissa := DigitsValue(s[i..dot]) as real
        + DigitsValue(s[fracStart..mantEnd]) as real / Pow10(fracLen) as real;
      var exp := ScanExponent(s, mantEnd);
      var magnitude := if exp.0 >= 0 then mantissa * Pow10(exp.0) as real
                       else mantissa / Pow10(-exp.0) as real;
      Some(Scan(magnitude, mantEnd + exp.1 - i))
  }

  /**
   * The longest prefix of `s` that is an optionally signed decimal number,
   * with its value; None when no such prefix exists.
   */
  function ScanDecimal(s: string): (r: Option<Scan>)
    ensures r.Some? ==> 0 < r.value.length <= |s|
  {
    var signLen := if |s| > 0 && (s[0] == '+' || s[0] == '-') then 1 else 0;
    match ScanUnsigned(s, signLen)
    case None => None
    case Some(sc) =>
      Some(Scan(if signLen == 1 && s[0] == '-' then -sc.value else sc.value, signLen + sc.length))
  }

  const Whitespace: set<char> := {' ', '\t', '\n', '\r', '\U{000B}', '\U{000C}'}

  /** Python's `float(token)` on decimal text. */
  function PyFloat(token: string): Option<real>
  {
    var t := Strip(token, Whitespace);
    match ScanDecimal(t)
    case Some(sc) => if sc.length == |t| then Some(sc.value) else None
    case None => None
  }

  /** C++'s `std::stod(token)`: None stands for the exception it throws. */
  function Stod(token: string): (r: Option<real>)
  {
    match ScanDecimal(LStrip(token, Whitespace))
    case Some(sc) => Some(sc.value)
    case None => None
  }

  /** The decimal digits of `n`, as Python's `str(n)` writes them. */
  function NatToString(n: nat): (d: string)
    ensures d != [] && AllDigits(d)
  {
    if n < 10 then [('0' as int + n) as char]
    else NatToString(n / 10) + [('0' as int + n % 10) as char]
  }

  lemma {:induction false} NatToStringValue(n: nat)
    ensures DigitsValue(NatToString(n)) == n
  {
    if n >= 10 {
      var d := NatToString(n);
      assert d[..|d| - 1] == NatToString(n / 10);
      NatToStringValue(n / 10);
    }
  }

  lemma {:induction false} DigitRunAll(s: string, i: nat)
    requires i <= |s| && forall k :: i <= k < |s| ==> IsDigit(s[k])
    ensures DigitRun(s, i) == |s| - i
    decreases |s| - i
  {
    if i < |s| {
      DigitRunAll(s, i + 1);
    }
  }

  /** Digits up to the end of the string are read whole, as their value. */
  lemma ScanUnsignedDigits(s: string, i: nat)
    requires i < |s| && forall k :: i <= k < |s| ==> IsDigit(s[k])
    ensures ScanUnsigned(s, i) == Some(Scan(DigitsValue(s[i..]) as real, |s| - i))
  {
    DigitRunAll(s, i);
    assert s[i..|s|] == s[i..];
    assert DigitsValue(s[|s|..|s|]) == 0;
  }

  /** Both readers read a run of digits as its value. */
  lemma ReadDigits(d: string)
    requires d != [] && AllDigits(d)
    ensures PyFloat(d) == Some(DigitsValue(d) as real)
    ensures Stod(d) == Some(DigitsValue(d) as real)
  {
    ScanDigits(d);
    StripKeeps(d);
  }

  /** Both readers read a minus sign and a run of digits as the negated value. */
  lemma ReadNegativeDigits(m: string)
    requires |m| >= 2 && m[0] == '-' && AllDigits(m[1..])
    ensures PyFloat(m) == Some(-(DigitsValue(m[1..]) as real))
    ensures Stod(m) == Some(-(DigitsValue(m[1..]) as real))
  {
    assert forall k :: 1 <= k < |m| ==> m[k] == m[1..][k - 1];
    ScanUnsignedDigits(m, 1);
    NegativeSign(m, DigitsValue(m[1..]) as real, |m| - 1);
    assert m[|m| - 1] == m[1..][|m| - 2];
    StripKeeps(m);
  }

  lemma NegativeSign(s: string, v: real, n: nat)
    requires |s| > 0 && s[0] == '-' && ScanUnsigned(s, 1) == Some(Scan(v, n))
    ensures ScanDecimal(s) == Some(Scan(-v, n + 1))
  {
  }

  lemma ScanDigits(d: string)
    requires d != [] && AllDigits(d)
    ensures ScanDecimal(d) == Some(Scan(DigitsValue(d) as real, |d|))
  {
    ScanUnsignedDigits(d, 0);
    assert d[0..] == d;
  }

  /** Text that neither starts nor ends with white space is left alone by both strips. */
  lemma StripKeeps(t: string)
    requires t != [] && IsDigit(t[|t| - 1]) && (IsDigit(t[0]) || t[0] == '-')
    ensures LStrip(t, Whitespace) == t && Strip(t, Whitespace) == t
  {
    assert t[0] !in Whitespace;
    assert t[|t| - 1] !in Whitespace;
  }

  /**
   * Both readers give back the value of a written natural number: the text
   * a poser writes with `str(n)` reads as n (ReadNegativeDigits covers the
   * minus sign).
   */
  lemma ReadWrittenNumber(n: nat)
    ensures PyFloat(NatToString(n)) == Some(n as real)
    ensures Stod(NatToString(n)) == Some(n as real)
  {
    NatToStringValue(n);
    ReadDigits(NatToString(n));
  }

  /** Naturals written out as `str(n)` writes them. */
  function Written(ns: seq<nat>): (words: seq<string>)
    ensures |words| == |ns| && forall k :: 0 <= k < |ns| ==> words[k] == NatToString(ns[k])
  {
    seq(|ns|, k requires 0 <= k < |ns| => NatToString(ns[k]))
  }

  /** Every written natural is a non-empty run of digits, free of white space. */
  lemma {:induction false} WrittenWords(ns: seq<nat>)
    ensures forall k :: 0 <= k < |ns| ==> Written(ns)[k] != [] && AllDigits(Written(ns)[k])
    ensures forall k :: 0 <= k < |ns| ==> NoSpace(Written(ns)[k]) && ' ' !in Written(ns)[k]
  {
    var words := Written(ns);
    forall k | 0 <= k < |ns|
      ensures NoSpace(words[k]) && ' ' !in words[k]
    {
      DigitsAreNoSpace(words[k]);
    }
  }

  /** Both readers read every written natural back. */
  lemma {:induction false} WrittenWordsRead(ns: seq<nat>)
    ensures forall k :: 0 <= k < |ns| ==> Stod(Written(ns)[k]) == Some(ns[k] as real) && PyFloat(Written(ns)[k]) == Some(ns[k] as real)
  {
    forall k | 0 <= k < |ns|
      ensures Stod(Written(ns)[k]) == Some(ns[k] as real) && PyFloat(Written(ns)[k]) == Some(ns[k] as real)
    {
      ReadWrittenNumber(ns[k]);
    }
  }

  lemma DigitsAreNoSpace(w: string)
    requires AllDigits(w)
    ensures NoSpace(w) && ' ' !in w
  {
    assert forall j :: 0 <= j < |w| ==> IsDigit(w[j]);
  }
}
