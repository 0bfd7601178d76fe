/**
 * The few pieces of JavaScript's string and number behaviour that the chat
 * client relies on: the decimal rendering of an integer inside a template
 * literal, `String.prototype.trim`, `substring(0, n)`, `padStart`, and ASCII
 * case folding as a case-insensitive regular expression applies it.
 * Decimal reading functions are the inverses used to state round trips.
 */
module JsText {
  import opened Wrappers
  import opened SeqLemmas

  predicate IsDigit(c: char) { '0' <= c <= '9' }

  predicate IsDigits(s: string) {
    |s| > 0 && forall i :: 0 <= i < |s| ==> IsDigit(s[i])
  }

  function DigitChar(d: nat): (c: char)
    requires d < 10
    ensures IsDigit(c)
  {
    ('0' as int + d) as char
  }

  function DigitValue(c: char): (d: nat)
    requires IsDigit(c)
    ensures d < 10
  {
    c as int - '0' as int
  }

  /** `${n}` for a non-negative integer: its decimal digits, no leading zero. */
  function NatToString(n: nat): (s: string)
    ensures IsDigits(s)
    ensures s[0] == '0' ==> s == "0"
    decreases n
  {
    if n < 10 then [DigitChar(n)] else NatToString(n / 10) + [DigitChar(n % 10)]
  }

  /** `${i}` for any integer: a minus sign in front of the magnitude when negative. */
  function IntToString(i: int): (s: string)
    ensures |s| > 0
    ensures s[0] == '-' <==> i < 0
  {
    if i < 0 then "-" + NatToString(-i) else NatToString(i)
  }

  /** The value of a string of decimal digits. */
  function DigitsValue(s: string): nat
    requires IsDigits(s)
    decreases |s|
  {
    if |s| == 1 then DigitValue(s[0])
    else DigitsValue(s[..|s| - 1]) * 10 + DigitValue(s[|s| - 1])
  }

  lemma {:induction false} DigitsValueOfNatToString(n: nat)
    ensures DigitsValue(NatToString(n)) == n
    decreases n
  {
    if n >= 10 {
      var s := NatToString(n);
      assert s[..|s| - 1] == NatToString(n / 10);
      DigitsValueOfNatToString(n / 10);
    }
  }

  /** The length of the longest prefix of `s` made of decimal digits. */
  function LeadingDigitCount(s: string): (k: nat)
    ensures k <= |s|
    ensures forall i :: 0 <= i < k ==> IsDigit(s[i])
    ensures k < |s| ==> !IsDigit(s[k])
  {
    if |s| == 0 || !IsDigit(s[0]) then 0 else 1 + LeadingDigitCount(s[1..])
  }

  /** Reads a non-negative decimal number at the front of `s`; returns it and what follows. */
  function ReadNat(s: string): Option<(nat, string)> {
    var k := LeadingDigitCount(s);
    if k == 0 then None else Some((DigitsValue(s[..k]), s[k..]))
  }

  /** Reads an optionally negative decimal number at the front of `s`. */
  function ReadInt(s: string): Option<(int, string)> {
    if |s| > 0 && s[0] == '-' then
      var r := ReadNat(s[1..]);
      if r.None? then None else Some((-(r.value.0 as int), r.value.1))
    else
      var r := ReadNat(s);
      if r.None? then None else Some((r.value.0 as int, r.value.1))
  }

  /** JavaScript truthiness of an optional numeric timestamp: absent and 0 are both falsy. */
  predicate IsTruthy(t: Option<int>) { t.Some? && t.value != 0 }

  predicate StartsWithDigit(s: string) { |s| > 0 && IsDigit(s[0]) }

  lemma ReadNatOfNatToString(n: nat, rest: string)
    requires !StartsWithDigit(rest)
    ensures ReadNat(NatToString(n) + rest) == Some((n, rest))
  {
    var d := NatToString(n);
    var s := d + rest;
    var k := LeadingDigitCount(s);
    assert forall i :: 0 <= i < |d| ==> s[i] == d[i];
    assert |rest| > 0 ==> s[|d|] == rest[0];
    assert s[..k] == d && s[k..] == rest;
    DigitsValueOfNatToString(n);
  }

  lemma ReadIntOfIntToString(i: int, rest: string)
    requires !StartsWithDigit(rest)
    ensures ReadInt(IntToString(i) + rest) == Some((i, rest))
  {
    if i < 0 {
      ReadIntOfNegative(i, rest);
    } else {
      ReadNatOfNatToString(i, rest);
      SliceConcat(NatToString(i), rest);
    }
  }

  lemma ReadIntOfNegative(i: int, rest: string)
    requires i < 0 && !StartsWithDigit(rest)
    ensures ReadInt(IntToString(i) + rest) == Some((i, rest))
  {
    var d := NatToString(-i);
    assert IntToString(i) == "-" + d;
    ConcatAssoc("-", d, rest);
    SliceConcat("-", d + rest);
    ReadNatOfNatToString(-i, rest);
  }

  /** `s.endsWith(suffix)`. */
  predicate EndsWith(s: string, suffix: string) {
    |suffix| <= |s| && s[|s| - |suffix|..] == suffix
  }

  /** A UTF-16 code unit, the element of a JavaScript string. */
  type CodeUnit = x: int | 0 <= x < 0x1_0000

  predicate IsBmp(c: char) { (c as int) < 0x1_0000 }

  predicate IsHighSurrogate(u: int) { 0xD800 <= u < 0xDC00 }

  /** One character as JavaScript stores it: itself below U+10000, otherwise a surrogate pair. */
  function Utf16Char(c: char): (u: seq<CodeUnit>)
    ensures IsBmp(c) ==> u == [c as int]
    ensures !IsBmp(c) ==> |u| == 2 && IsHighSurrogate(u[0]) && !IsHighSurrogate(u[1])
  {
    var v := c as int;
    if v < 0x1_0000 then [v]
    else [0xD800 + (v - 0x1_0000) / 0x400, 0xDC00 + (v - 0x1_0000) % 0x400]
  }

  /** The code units of a string, which is what `length` and `substring` count. */
  function Utf16(s: string): (u: seq<CodeUnit>)
    ensures |s| <= |u| <= 2 * |s|
    decreases |s|
  {
    if s == [] then [] else Utf16Char(s[0]) + Utf16(s[1..])
  }

  lemma {:induction false} Utf16Concat(a: string, b: string)
    ensures Utf16(a + b) == Utf16(a) + Utf16(b)
    decreases |a|
  {
    if a == [] {
      assert a + b == b;
    } else {
      assert (a + b)[0] == a[0] && (a + b)[1..] == a[1..] + b;
      Utf16Concat(a[1..], b);
      ConcatAssoc(Utf16Char(a[0]), Utf16(a[1..]), Utf16(b));
    }
  }

  /** A string with no character beyond U+FFFF has one code unit per character, each its code point. */
  lemma {:induction false} Utf16OfBmp(s: string)
    requires forall i :: 0 <= i < |s| ==> IsBmp(s[i])
    ensures |Utf16(s)| == |s|
    ensures forall i :: 0 <= i < |s| ==> Utf16(s)[i] == s[i] as int
    decreases |s|
  {
    if s != [] {
      Utf16OfBmp(s[1..]);
    }
  }

  /** `s.substring(0, n)`: the first `n` code units, or all of them when there are fewer. */
  function Substring(s: string, n: nat): (r: seq<CodeUnit>)
    ensures |r| == if |Utf16(s)| < n then |Utf16(s)| else n
    ensures r <= Utf16(s)
  {
    var u := Utf16(s);
    if |u| < n then u else u[..n]
  }

  /** On text with no character beyond U+FFFF, cutting code units is cutting characters. */
  lemma SubstringOfBmp(s: string, n: nat)
    requires forall i :: 0 <= i < |s| ==> IsBmp(s[i])
    ensures var k := if |s| < n then |s| else n;
            Substring(s, n) == Utf16(s[..k])
  {
    var k := if |s| < n then |s| else n;
    Utf16OfBmp(s);
    Utf16OfBmp(s[..k]);
    assert Substring(s, n) == Utf16(s)[..k];
  }

  /** A cut that falls inside a surrogate pair keeps the pair's first half alone. */
  lemma SubstringSplitsPair(a: string, c: char)
    requires !IsBmp(c)
    ensures Substring(a + [c], |Utf16(a)| + 1) == Utf16(a) + [Utf16Char(c)[0]]
    ensures IsHighSurrogate(Substring(a + [c], |Utf16(a)| + 1)[|Utf16(a)|])
  {
    Utf16Concat(a, [c]);
    assert Utf16([c]) == Utf16Char(c) + Utf16([]);
    ConcatEmpty(Utf16Char(c));
    var u := Utf16(a) + Utf16Char(c);
    assert u[..|Utf16(a)| + 1] == Utf16(a) + [Utf16Char(c)[0]];
  }

  /** `s.padStart(2, '0')` as applied to the decimal rendering of a number. */
  function PadStart2(s: string): (r: string)
    ensures |r| == if |s| < 2 then 2 else |s|
  {
    if |s| == 0 then "00" else if |s| == 1 then "0" + s else s
  }

  /**
   * The characters `String.prototype.trim` removes: ECMAScript WhiteSpace
   * (tab, vertical tab, form feed, space, no-break space, byte order mark and
   * the Unicode space separators) and LineTerminator (line feed, carriage
   * return, line and paragraph separator).
   */
  predicate IsJsWhitespace(c: char) {
    || c == '\t' || c == '\n' || c == '\U{000B}' || c == '\U{000C}' || c == '\r'
    || c == ' ' || c == '\U{00A0}' || c == '\U{1680}'
    || ('\U{2000}' <= c <= '\U{200A}')
    || c == '\U{2028}' || c == '\U{2029}' || c == '\U{202F}' || c == '\U{205F}'
    || c == '\U{3000}' || c == '\U{FEFF}'
  }

  predicate IsBlank(s: string) {
    forall i :: 0 <= i < |s| ==> IsJsWhitespace(s[i])
  }

  function TrimStart(s: string): (r: string)
    ensures |r| <= |s| && r == s[|s| - |r|..]
    ensures IsBlank(s[..|s| - |r|])
    ensures r == [] || !IsJsWhitespace(r[0])
  {
    if |s| > 0 && IsJsWhitespace(s[0]) then
      var t := s[1..];
      var r := TrimStart(t);
      assert t[|t| - |r|..] == s[|s| - |r|..];
      assert IsBlank(s[..|s| - |r|]) by {
        forall i | 0 <= i < |s| - |r| ensures IsJsWhitespace(s[i]) {
          if i > 0 {
            assert s[i] == t[..|t| - |r|][i - 1];
          }
        }
      }
      r
    else s
  }

  function TrimEnd(s: string): (r: string)
    ensures |r| <= |s| && r == s[..|r|]
    ensures IsBlank(s[|r|..])
    ensures r == [] || !IsJsWhitespace(r[|r| - 1])
  {
    if |s| > 0 && IsJsWhitespace(s[|s| - 1]) then
      var t := s[..|s| - 1];
      var r := TrimEnd(t);
      assert t[..|r|] == s[..|r|];
      assert IsBlank(s[|r|..]) by {
        forall i | |r| <= i < |s| ensures IsJsWhitespace(s[i]) {
          if i < |s| - 1 {
            assert s[i] == t[|r|..][i - |r|];
          }
        }
      }
      r
    else s
  }

  /** `s.trim()`; `TrimIsInfix` shows it only cuts whitespace from the two ends. */
  function Trim(s: string): string {
    TrimEnd(TrimStart(s))
  }

  /** What `trim` keeps is a contiguous run of `s` with only whitespace cut on either side. */
  lemma TrimIsInfix(s: string)
    ensures exists i, j :: 0 <= i <= j <= |s| && Trim(s) == s[i..j]
                           && IsBlank(s[..i]) && IsBlank(s[j..])
  {
    var t := TrimStart(s);
    var i := |s| - |t|;
    var r := TrimEnd(t);
    var j := i + |r|;
    assert Trim(s) == s[i..j] by {
      assert s[i..j] == t[..|r|];
    }
    assert IsBlank(s[j..]) by {
      assert s[j..] == t[|r|..];
    }
    assert IsBlank(s[..i]);
  }

  /** `!s.trim()` holds exactly for the strings made only of whitespace. */
  lemma TrimEmptyIffBlank(s: string)
    ensures Trim(s) == "" <==> IsBlank(s)
  {
  }

  /** Trimming a second time changes nothing. */
  lemma TrimIdempotent(s: string)
    ensures Trim(Trim(s)) == Trim(s)
  {
    var r := Trim(s);
    if r != [] {
      assert TrimStart(r) == r;
      assert TrimEnd(r) == r;
    }
  }

  /** ASCII case folding, as a case-insensitive JavaScript regular expression without the `u` flag applies it to Latin letters. */
  function AsciiLower(c: char): (l: char)
    ensures 'A' <= c <= 'Z' ==> l as int == c as int + 32
    ensures !('A' <= c <= 'Z') ==> l == c
  {
    if 'A' <= c <= 'Z' then (c as int + 32) as char else c
  }

  predicate CaseEq(a: string, b: string) {
    |a| == |b| && forall i :: 0 <= i < |a| ==> AsciiLower(a[i]) == AsciiLower(b[i])
  }
}
