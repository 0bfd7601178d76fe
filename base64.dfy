/**
 * Base64 with the standard alphabet of section 4 of RFC 4648, decoded the
 * way the browser's `atob` does it: the forgiving-base64 decode of the WHATWG
 * Infra standard (ASCII whitespace is dropped, one or two trailing `=` are
 * dropped when the length is a multiple of 4, a remainder of 1 or any
 * character outside the alphabet is a failure, trailing bits are discarded).
 * The unpadded encoder is the decoder's partner: decoding inverts it.
 */
module Base64 {
  import opened Wrappers
  import opened SeqLemmas

  type Byte = x: int | 0 <= x < 256
  type Sextet = x: int | 0 <= x < 64

  predicate InAlphabet(c: char) {
    ('A' <= c <= 'Z') || ('a' <= c <= 'z') || ('0' <= c <= '9') || c == '+' || c == '/'
  }

  predicate AllInAlphabet(s: string) {
    forall i :: 0 <= i < |s| ==> InAlphabet(s[i])
  }

  function SextetOf(c: char): Sextet
    requires InAlphabet(c)
  {
    if 'A' <= c <= 'Z' then c as int - 'A' as int
    else if 'a' <= c <= 'z' then c as int - 'a' as int + 26
    else if '0' <= c <= '9' then c as int - '0' as int + 52
    else if c == '+' then 62
    else 63
  }

  function CharOf(v: Sextet): (c: char)
    ensures InAlphabet(c) && SextetOf(c) == v
  {
    if v < 26 then ('A' as int + v) as char
    else if v < 52 then ('a' as int + v - 26) as char
    else if v < 62 then ('0' as int + v - 52) as char
    else if v == 62 then '+'
    else '/'
  }

  /** ASCII whitespace in the sense of the WHATWG Infra standard. */
  predicate IsAsciiWhitespace(c: char) {
    c == '\t' || c == '\n' || c == '\U{000C}' || c == '\r' || c == ' '
  }

  function RemoveAsciiWhitespace(s: string): (r: string)
    ensures |r| <= |s|
    ensures forall i :: 0 <= i < |r| ==> !IsAsciiWhitespace(r[i])
    ensures (forall i :: 0 <= i < |s| ==> !IsAsciiWhitespace(s[i])) ==> r == s
    decreases |s|
  {
    if s == [] then []
    else if IsAsciiWhitespace(s[0]) then RemoveAsciiWhitespace(s[1..])
    else [s[0]] + RemoveAsciiWhitespace(s[1..])
  }

  /** With a length divisible by 4, one or two trailing `=` are removed. */
  function StripPadding(s: string): (r: string)
    ensures r <= s && |s| - 2 <= |r|
    ensures |s| % 4 != 0 ==> r == s
  {
    if |s| % 4 == 0 then
      if |s| >= 2 && s[|s| - 2] == '=' && s[|s| - 1] == '=' then s[..|s| - 2]
      else if |s| >= 1 && s[|s| - 1] == '=' then s[..|s| - 1]
      else s
    else s
  }

  /** The number of bytes `n` base64 characters carry. */
  function DecodedLength(n: nat): nat {
    (n / 4) * 3 + (if n % 4 == 0 then 0 else n % 4 - 1)
  }

  function Dec4(a: Sextet, b: Sextet, c: Sextet, d: Sextet): seq<Byte> {
    [a * 4 + b / 16, (b % 16) * 16 + c / 4, (c % 4) * 64 + d]
  }

  /** Decodes groups of four characters; a final group of two or three leaves its extra bits out. */
  function DecodeGroups(s: string): (bs: seq<Byte>)
    requires AllInAlphabet(s) && |s| % 4 != 1
    ensures |bs| == DecodedLength(|s|)
    decreases |s|
  {
    if |s| >= 4 then
      Dec4(SextetOf(s[0]), SextetOf(s[1]), SextetOf(s[2]), SextetOf(s[3])) + DecodeGroups(s[4..])
    else if |s| == 3 then
      Dec4(SextetOf(s[0]), SextetOf(s[1]), SextetOf(s[2]), 0)[..2]
    else if |s| == 2 then
      Dec4(SextetOf(s[0]), SextetOf(s[1]), 0, 0)[..1]
    else []
  }

  /** The forgiving-base64 decode: `None` is the failure `atob` throws. */
  function Decode(s: string): (r: Option<seq<Byte>>)
    ensures var d := StripPadding(RemoveAsciiWhitespace(s));
            && (r.None? <==> |d| % 4 == 1 || !AllInAlphabet(d))
            && (r.Some? ==> |r.value| == DecodedLength(|d|))
  {
    var d := StripPadding(RemoveAsciiWhitespace(s));
    if |d| % 4 == 1 || !AllInAlphabet(d) then None else Some(DecodeGroups(d))
  }

  // ------------------------------------------------------------- the encoder

  /** One group: three bytes as four sextets, most significant bits first. */
  function Enc3(x: Byte, y: Byte, z: Byte): (e: string)
    ensures |e| == 4 && AllInAlphabet(e)
  {
    [CharOf(x / 4), CharOf((x % 4) * 16 + y / 16), CharOf((y % 16) * 4 + z / 64), CharOf(z % 64)]
  }

  lemma AllInAlphabetConcat(a: string, b: string)
    requires AllInAlphabet(a) && AllInAlphabet(b)
    ensures AllInAlphabet(a + b)
  {
    assert forall i :: 0 <= i < |a + b| ==> (a + b)[i] == if i < |a| then a[i] else b[i - |a|];
  }

  /** Base64 without `=` padding. */
  function EncodeUnpadded(bs: seq<Byte>): (s: string)
    ensures AllInAlphabet(s) && |s| % 4 != 1
    decreases |bs|
  {
    if |bs| >= 3 then
      var e := Enc3(bs[0], bs[1], bs[2]);
      var rest := EncodeUnpadded(bs[3..]);
      AllInAlphabetConcat(e, rest);
      e + rest
    else if |bs| == 2 then Enc3(bs[0], bs[1], 0)[..3]
    else if |bs| == 1 then Enc3(bs[0], 0, 0)[..2]
    else []
  }

  lemma SplitBy16(hi: int, lo: int)
    requires 0 <= lo < 16
    ensures (hi * 16 + lo) / 16 == hi && (hi * 16 + lo) % 16 == lo
  {
  }

  lemma SplitBy4(hi: int, lo: int)
    requires 0 <= lo < 4
    ensures (hi * 4 + lo) / 4 == hi && (hi * 4 + lo) % 4 == lo
  {
  }

  lemma FirstByteBack(x: int, y: int)
    requires 0 <= x < 256 && 0 <= y < 256
    ensures (x / 4) * 4 + ((x % 4) * 16 + y / 16) / 16 == x
  {
    SplitBy16(x % 4, y / 16);
  }

  lemma SecondByteBack(x: int, y: int, z: int)
    requires 0 <= x < 256 && 0 <= y < 256 && 0 <= z < 256
    ensures (((x % 4) * 16 + y / 16) % 16) * 16 + ((y % 16) * 4 + z / 64) / 4 == y
  {
    SplitBy16(x % 4, y / 16);
    SplitBy4(y % 16, z / 64);
  }

  lemma ThirdByteBack(y: int, z: int)
    requires 0 <= y < 256 && 0 <= z < 256
    ensures (((y % 16) * 4 + z / 64) % 4) * 64 + z % 64 == z
  {
    SplitBy4(y % 16, z / 64);
  }

  /** Decoding a group gives back the three bytes it was made from. */
  lemma Dec4OfEnc3(x: Byte, y: Byte, z: Byte)
    ensures var e := Enc3(x, y, z);
            Dec4(SextetOf(e[0]), SextetOf(e[1]), SextetOf(e[2]), SextetOf(e[3])) == [x, y, z]
  {
    var a, b, c, d := x / 4, (x % 4) * 16 + y / 16, (y % 16) * 4 + z / 64, z % 64;
    FirstByteBack(x, y);
    SecondByteBack(x, y, z);
    ThirdByteBack(y, z);
    var e := Enc3(x, y, z);
    assert SextetOf(e[0]) == a && SextetOf(e[1]) == b && SextetOf(e[2]) == c && SextetOf(e[3]) == d;
  }

  /** A leading whole group is decoded on its own. */
  lemma DecodeGroupsCons(e: string, rest: string)
    requires |e| == 4 && AllInAlphabet(e) && AllInAlphabet(rest) && |rest| % 4 != 1
    ensures AllInAlphabet(e + rest) && |e + rest| % 4 != 1
    ensures DecodeGroups(e + rest)
            == Dec4(SextetOf(e[0]), SextetOf(e[1]), SextetOf(e[2]), SextetOf(e[3])) + DecodeGroups(rest)
  {
    AllInAlphabetConcat(e, rest);
    var s := e + rest;
    assert s[0] == e[0] && s[1] == e[1] && s[2] == e[2] && s[3] == e[3];
    assert s[4..] == rest;
  }

  /** The short final groups: two bytes as three characters, one byte as two. */
  lemma DecodeShortGroups(x: Byte, y: Byte)
    ensures DecodeGroups(Enc3(x, y, 0)[..3]) == [x, y]
    ensures DecodeGroups(Enc3(x, 0, 0)[..2]) == [x]
  {
    Dec4OfEnc3(x, y, 0);
    Dec4OfEnc3(x, 0, 0);
  }

  lemma DecodeWholeGroup(bs: seq<Byte>)
    requires |bs| >= 3 && DecodeGroups(EncodeUnpadded(bs[3..])) == bs[3..]
    ensures DecodeGroups(EncodeUnpadded(bs)) == bs
  {
    var e := Enc3(bs[0], bs[1], bs[2]);
    var rest := EncodeUnpadded(bs[3..]);
    var head := Dec4(SextetOf(e[0]), SextetOf(e[1]), SextetOf(e[2]), SextetOf(e[3]));
    Dec4OfEnc3(bs[0], bs[1], bs[2]);
    DecodeGroupsCons(e, rest);
    calc {
      DecodeGroups(EncodeUnpadded(bs));
      DecodeGroups(e + rest);
      head + DecodeGroups(rest);
      [bs[0], bs[1], bs[2]] + bs[3..];
      { FirstThreeThenRest(bs); }
      bs;
    }
  }

  /** Decoding inverts the unpadded encoding. */
  lemma {:induction false} DecodeGroupsOfEncode(bs: seq<Byte>)
    ensures DecodeGroups(EncodeUnpadded(bs)) == bs
    decreases |bs|
  {
    if |bs| >= 3 {
      DecodeGroupsOfEncode(bs[3..]);
      DecodeWholeGroup(bs);
    } else if |bs| == 2 {
      DecodeShortGroups(bs[0], bs[1]);
      assert bs == [bs[0], bs[1]];
    } else if |bs| == 1 {
      DecodeShortGroups(bs[0], 0);
      assert bs == [bs[0]];
    }
  }

  /** How many `=` bring a length up to a multiple of four. */
  function PaddingCount(len: nat): (k: nat)
    ensures k <= 3 && (len + k) % 4 == 0
  {
    (4 - len % 4) % 4
  }

  /** `=` padding up to a multiple of four characters. */
  function Padded(s: string): (p: string)
    ensures |p| % 4 == 0 && s <= p
    ensures forall i :: |s| <= i < |p| ==> p[i] == '='
  {
    s + seq(PaddingCount(|s|), _ => '=')
  }

  /** Characters of the alphabet are never whitespace, so the decoder's first step keeps them all. */
  lemma AlphabetKeptByWhitespaceRemoval(s: string)
    requires forall i :: 0 <= i < |s| ==> InAlphabet(s[i]) || s[i] == '='
    ensures RemoveAsciiWhitespace(s) == s
  {
  }

  /** Padding an unpadded encoding adds exactly what the decoder strips again. */
  lemma StripPaddingOfPadded(s: string)
    requires AllInAlphabet(s) && |s| % 4 != 1
    ensures StripPadding(s) == s
    ensures StripPadding(Padded(s)) == s
  {
    assert |s| == 0 || s[|s| - 1] != '=';
    var p := Padded(s);
    if |s| % 4 == 2 {
      assert p == s + "==";
    } else if |s| % 4 == 3 {
      assert p == s + "=";
    } else {
      assert p == s;
    }
  }

  /** The full decoder accepts the padded and the unpadded encoding alike. */
  lemma DecodeOfEncode(bs: seq<Byte>)
    ensures Decode(EncodeUnpadded(bs)) == Some(bs)
    ensures Decode(Padded(EncodeUnpadded(bs))) == Some(bs)
  {
    var s := EncodeUnpadded(bs);
    var p := Padded(s);
    AlphabetKeptByWhitespaceRemoval(s);
    assert forall i :: 0 <= i < |p| ==> InAlphabet(p[i]) || p[i] == '=' by {
      forall i | 0 <= i < |p| ensures InAlphabet(p[i]) || p[i] == '=' {
        if i >= |s| { assert p[i] == '='; }
      }
    }
    AlphabetKeptByWhitespaceRemoval(p);
    StripPaddingOfPadded(s);
    DecodeGroupsOfEncode(bs);
  }
}
