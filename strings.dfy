/**
 * The pieces of Python's text handling that the bot relies on: decimal digits,
 * str(int), int(str), the "{:02d}" and "{:+d}" format specifications,
 * fixed-width zero padding as strftime uses it, str.join / str.split on a
 * single separator, and string repetition.  Only ASCII digits and ASCII
 * whitespace are modelled.
 */
module Strings {
  import opened Wrappers

  predicate IsDigit(c: char) { '0' <= c <= '9' }

  predicate AllDigits(s: string) { forall i :: 0 <= i < |s| ==> IsDigit(s[i]) }

  function Pow10(k: nat): (p: nat)
    ensures p >= 1
  {
    if k == 0 then 1 else 10 * Pow10(k - 1)
  }

  function DigitValue(c: char): (d: int)
    requires IsDigit(c)
    ensures 0 <= d < 10
  {
    (c as int) - ('0' as int)
  }

  function DigitChar(d: int): (c: char)
    requires 0 <= d < 10
    ensures IsDigit(c) && DigitValue(c) == d
  {
    (('0' as int) + d) as char
  }

  /** The value of a string of decimal digits, leading zeros allowed. */
  function DigitsValue(s: string): (n: nat)
    requires AllDigits(s)
    ensures n < Pow10(|s|)
  {
    if s == [] then 0 else DigitsValue(s[..|s| - 1]) * 10 + DigitValue(s[|s| - 1])
  }

  /** str(n) for n >= 0: the shortest decimal spelling, no leading zero. */
  function NatToString(n: nat): (s: string)
    ensures |s| >= 1 && AllDigits(s) && DigitsValue(s) == n
    ensures |s| > 1 ==> s[0] != '0'
    ensures n < 10 <==> |s| == 1
    ensures n < 100 ==> |s| <= 2
    decreases n
  {
    if n < 10 then [DigitChar(n)]
    else
      var t := NatToString(n / 10);
      var s := t + [DigitChar(n % 10)];
      assert s[..|s| - 1] == t;
      s
  }

  /** str(n) for any integer. */
  function IntToString(n: int): (s: string)
    ensures |s| >= 1
    ensures (s[0] == '-') <==> n < 0
  {
    if n < 0 then "-" + NatToString(-n) else NatToString(n)
  }

  /** The "{:+d}" format specification: an explicit sign, then the magnitude. */
  function SignedString(n: int): (s: string)
    ensures |s| >= 2
    ensures (s[0] == '+') <==> n >= 0
    ensures (s[0] == '-') <==> n < 0
    ensures AllDigits(s[1..]) && DigitsValue(s[1..]) == if n < 0 then -n else n
  {
    var s := (if n < 0 then "-" + NatToString(-n) else "+" + NatToString(n));
    assert s[1..] == NatToString(if n < 0 then -n else n);
    s
  }

  /** The "{:02d}" format specification: at least two characters, zero-filled after any sign. */
  function Pad2(n: int): (s: string)
    ensures n >= 0 ==> |s| >= 2 && AllDigits(s) && DigitsValue(s) == n
    ensures 0 <= n < 100 ==> |s| == 2
    ensures n < 0 ==> s == IntToString(n)
  {
    if 0 <= n < 10 then
      var s := "0" + NatToString(n);
      assert s[..1] == "0";
      s
    else IntToString(n)
  }

  /** Exactly w digits, zero-filled: strftime's %Y (w = 4) and %m, %d, %H, %M (w = 2). */
  function Fixed(n: nat, w: nat): (s: string)
    ensures |s| == w && AllDigits(s)
    ensures n < Pow10(w) ==> DigitsValue(s) == n
  {
    if w == 0 then ""
    else
      var t := Fixed(n / 10, w - 1);
      var s := t + [DigitChar(n % 10)];
      assert s[..|s| - 1] == t;
      s
  }

  /** Reading a zero-filled field back: Fixed is the inverse of DigitsValue on digit strings. */
  lemma {:induction false} FixedOfDigits(s: string)
    requires AllDigits(s)
    ensures Fixed(DigitsValue(s), |s|) == s
  {
    if s != [] {
      var t := s[..|s| - 1];
      var c := s[|s| - 1];
      FixedOfDigits(t);
      var n, a, b := DigitsValue(s), DigitsValue(t), DigitValue(c);
      assert n == a * 10 + b;
      DivMod10(a, b);
      DigitCharOfValue(c);
      FixedStep(n, |s|, a, b);
      assert s == t + [c];
    }
  }

  /** One unfolding of Fixed, with the quotient and the last digit named. */
  lemma FixedStep(n: nat, w: nat, a: nat, b: int)
    requires w >= 1 && 0 <= b < 10 && n / 10 == a && n % 10 == b
    ensures Fixed(n, w) == Fixed(a, w - 1) + [DigitChar(b)]
  {
  }

  lemma DivMod10(a: nat, b: int)
    requires 0 <= b < 10
    ensures (a * 10 + b) / 10 == a && (a * 10 + b) % 10 == b
  {
  }

  lemma DigitCharOfValue(c: char)
    requires IsDigit(c)
    ensures DigitChar(DigitValue(c)) == c
  {
  }

  predicate IsSpace(c: char) { c == ' ' || '\t' <= c <= '\r' }

  function TrimLeft(s: string): (r: string)
    ensures |r| <= |s| && r == s[|s| - |r|..]
    ensures r == [] || !IsSpace(r[0])
    ensures forall i :: 0 <= i < |s| - |r| ==> IsSpace(s[i])
  {
    if s != [] && IsSpace(s[0]) then TrimLeft(s[1..]) else s
  }

  function TrimRight(s: string): (r: string)
    ensures |r| <= |s| && r == s[..|r|]
    ensures r == [] || !IsSpace(r[|r| - 1])
    ensures forall i :: |r| <= i < |s| ==> IsSpace(s[i])
  {
    if s != [] && IsSpace(s[|s| - 1]) then TrimRight(s[..|s| - 1]) else s
  }

  /**
   * int(s): surrounding whitespace, an optional sign, then one or more digits;
   * anything else raises ValueError, modelled as None.
   */
  function ParseInt(s: string): Option<int>
  {
    ParseTrimmed(TrimRight(TrimLeft(s)))
  }

  /** int() once the surrounding whitespace is gone: an optional sign, then digits. */
  function ParseTrimmed(t: string): Option<int>
  {
    if t == [] then None
    else
      var body := if t[0] == '-' || t[0] == '+' then t[1..] else t;
      if body == [] || !AllDigits(body) then None
      else
        var v := DigitsValue(body) as int;
        Some(if t[0] == '-' then -v else v)
  }

  lemma TrimmedPlain(t: string)
    requires t != [] && !IsSpace(t[0]) && !IsSpace(t[|t| - 1])
    ensures TrimRight(TrimLeft(t)) == t
  {
    assert TrimLeft(t) == t;
    assert TrimRight(t) == t;
  }

  /** int() on a one-character sign and a digit string of value v gives r, the signed value. */
  lemma {:induction false} ParseSignedText(c: char, d: string, v: nat, r: int)
    requires c == '-' || c == '+'
    requires d != [] && AllDigits(d) && DigitsValue(d) == v
    requires r == if c == '-' then -(v as int) else v
    ensures ParseInt([c] + d) == Some(r)
  {
    var t := [c] + d;
    assert t[0] == c && t[1..] == d && t[|t| - 1] == d[|d| - 1];
    assert IsDigit(d[|d| - 1]);
    TrimmedPlain(t);
  }

  /** int() on a digit string of value v without a sign. */
  lemma {:induction false} ParsePlainText(d: string, v: nat)
    requires d != [] && AllDigits(d) && DigitsValue(d) == v
    ensures ParseInt(d) == Some(v)
  {
    assert IsDigit(d[0]) && IsDigit(d[|d| - 1]);
    TrimmedPlain(d);
  }

  /** int(str(n)) == n. */
  lemma {:induction false} ParseIntRoundTrip(n: int)
    ensures ParseInt(IntToString(n)) == Some(n)
  {
    if n < 0 {
      ParseSignedText('-', NatToString(-n), -n, n);
    } else {
      ParsePlainText(NatToString(n), n);
    }
  }

  /** int accepts the explicit sign that "{:+d}" writes, so the signed spelling reads back too. */
  lemma {:induction false} SignedStringRoundTrip(n: int)
    ensures ParseInt(SignedString(n)) == Some(n)
  {
    var c := if n < 0 then '-' else '+';
    var m := if n < 0 then -n else n;
    assert SignedString(n) == [c] + NatToString(m);
    ParseSignedText(c, NatToString(m), m, n);
  }

  /** sep.join(parts). */
  function Join(sep: string, parts: seq<string>): string
  {
    if parts == [] then ""
    else if |parts| == 1 then parts[0]
    else parts[0] + sep + Join(sep, parts[1..])
  }

  /** s.split(c) for a one-character separator; it always yields at least one part. */
  function Split(s: string, c: char): (parts: seq<string>)
    ensures |parts| >= 1
  {
    if s == [] then [""]
    else if s[0] == c then [""] + Split(s[1..], c)
    else
      var rest := Split(s[1..], c);
      [[s[0]] + rest[0]] + rest[1..]
  }

  lemma {:induction false} SplitPastPlain(p: string, tail: string, c: char)
    requires c !in p
    ensures Split(p + tail, c) == [p + Split(tail, c)[0]] + Split(tail, c)[1..]
  {
    if p != [] {
      assert (p + tail)[1..] == p[1..] + tail;
      SplitPastPlain(p[1..], tail, c);
      assert [p[0]] + (p[1..] + Split(tail, c)[0]) == p + Split(tail, c)[0];
    } else {
      assert p + tail == tail;
      var sp := Split(tail, c);
      assert sp == [sp[0]] + sp[1..];
      assert p + sp[0] == sp[0];
    }
  }

  /** Splitting a join recovers the parts, provided no part contains the separator. */
  lemma {:induction false} SplitJoin(parts: seq<string>, c: char)
    requires |parts| >= 1
    requires forall i :: 0 <= i < |parts| ==> c !in parts[i]
    ensures Split(Join([c], parts), c) == parts
  {
    if |parts| == 1 {
      SplitPastPlain(parts[0], "", c);
      assert parts[0] + "" == parts[0];
    } else {
      var rest := Join([c], parts[1..]);
      SplitJoin(parts[1..], c);
      assert parts[0] + [c] + rest == parts[0] + ([c] + rest);
      SplitPastPlain(parts[0], [c] + rest, c);
      assert ([c] + rest)[1..] == rest;
      assert Split([c] + rest, c) == [""] + parts[1..];
      assert parts[0] + "" == parts[0];
      assert parts == [parts[0]] + parts[1..];
    }
  }

  /** c * n in Python: n copies of c, and the empty string when n <= 0. */
  function Repeat(c: char, n: int): (s: string)
    ensures |s| == if n > 0 then n else 0
    ensures forall i :: 0 <= i < |s| ==> s[i] == c
  {
    if n <= 0 then "" else [c] + Repeat(c, n - 1)
  }
}
