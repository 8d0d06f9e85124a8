/**
 `URLSearchParams` and its application/x-www-form-urlencoded text (section 5 of the WHATWG URL Standard). A string is a
 sequence of Unicode scalar values, as the standard's USVString.
 */
module UrlEncoded {
  import opened Base
  import opened Text

  // ----- UTF-8 -----

  function Utf8Char(c: char): (b: Bytes)
    ensures 1 <= |b| <= 4
  {
    var v := c as int;
    if v < 0x80 then [v]
    else if v < 0x800 then [0xC0 + v / 64, 0x80 + v % 64]
    else if v < 0x10000 then [0xE0 + v / 64 / 64, 0x80 + v / 64 % 64, 0x80 + v % 64]
    else [0xF0 + v / 64 / 64 / 64, 0x80 + v / 64 / 64 % 64, 0x80 + v / 64 % 64, 0x80 + v % 64]
  }

  function Utf8(s: string): Bytes {
    if |s| == 0 then [] else Utf8Char(s[0]) + Utf8(s[1..])
  }

  /** How many continuation bytes a leading byte calls for, and the range of the first of them. */
  function Lead(b: byte): (nat, byte, byte) {
    if 0xC2 <= b <= 0xDF then (1, 0x80, 0xBF)
    else if b == 0xE0 then (2, 0xA0, 0xBF)
    else if b == 0xED then (2, 0x80, 0x9F)
    else if 0xE1 <= b <= 0xEF then (2, 0x80, 0xBF)
    else if b == 0xF0 then (3, 0x90, 0xBF)
    else if b == 0xF4 then (3, 0x80, 0x8F)
    else if 0xF1 <= b <= 0xF3 then (3, 0x80, 0xBF)
    else (0, 0x80, 0xBF)
  }

  predicate Continues(b: Bytes, i: nat, low: byte, high: byte) {
    i < |b| && low <= b[i] <= high
  }

  const REPLACEMENT := '\U{FFFD}'

  /** The bits of a byte above its marker. */
  function Bits(b: byte, marker: int): int {
    var v: int := b;
    v - marker
  }

  /** Six more bits, from a continuation byte. */
  function Join6(v: int, next: byte): int {
    v * 64 + Bits(next, 0x80)
  }

  /** The next character and how many bytes it takes; malformed input gives the replacement character. */
  function NextChar(b: Bytes): (r: (char, nat))
    requires |b| > 0
    ensures 1 <= r.1 <= |b|
  {
    var (needed, low, high) := Lead(b[0]);
    if b[0] < 0x80 then (b[0] as char, 1)
    else if needed == 0 || !Continues(b, 1, low, high) then (REPLACEMENT, 1)
    else if needed == 1 then (Join6(Bits(b[0], 0xC0), b[1]) as char, 2)
    else if !Continues(b, 2, 0x80, 0xBF) then (REPLACEMENT, 2)
    else if needed == 2 then (Join6(Join6(Bits(b[0], 0xE0), b[1]), b[2]) as char, 3)
    else if !Continues(b, 3, 0x80, 0xBF) then (REPLACEMENT, 3)
    else (Join6(Join6(Join6(Bits(b[0], 0xF0), b[1]), b[2]), b[3]) as char, 4)
  }

  function FromUtf8(b: Bytes): string
    decreases |b|
  {
    if |b| == 0 then "" else
      var (c, n) := NextChar(b);
      [c] + FromUtf8(b[n..])
  }

  lemma ShortReadsBack(c: char, b: Bytes)
    requires c as int < 0x800 && Utf8Char(c) <= b
    ensures NextChar(b) == (c, |Utf8Char(c)|)
  {
    var v := c as int;
    assert v == v / 64 * 64 + v % 64;
    assert b[0] == Utf8Char(c)[0] && (v >= 0x80 ==> b[1] == Utf8Char(c)[1]);
  }

  lemma ThreeReadBack(c: char, b: Bytes)
    requires 0x800 <= c as int < 0x10000 && Utf8Char(c) <= b
    ensures NextChar(b) == (c, 3)
  {
    var v := c as int;
    var w := v / 64;
    assert v == w * 64 + v % 64 && w == w / 64 * 64 + w % 64;
    assert b[0] == Utf8Char(c)[0] && b[1] == Utf8Char(c)[1] && b[2] == Utf8Char(c)[2];
    assert !(0xD800 <= v < 0xE000);
  }

  lemma FourReadBack(c: char, b: Bytes)
    requires 0x10000 <= c as int && Utf8Char(c) <= b
    ensures NextChar(b) == (c, 4)
  {
    var v := c as int;
    var w := v / 64;
    var x := w / 64;
    assert v == w * 64 + v % 64 && w == x * 64 + w % 64 && x == x / 64 * 64 + x % 64;
    assert b[0] == Utf8Char(c)[0] && b[1] == Utf8Char(c)[1] && b[2] == Utf8Char(c)[2] && b[3] == Utf8Char(c)[3];
    assert v < 0x110000;
  }

  lemma CharReadsBack(c: char, rest: Bytes)
    ensures NextChar(Utf8Char(c) + rest) == (c, |Utf8Char(c)|)
  {
    if c as int < 0x800 {
      ShortReadsBack(c, Utf8Char(c) + rest);
    } else if c as int < 0x10000 {
      ThreeReadBack(c, Utf8Char(c) + rest);
    } else {
      FourReadBack(c, Utf8Char(c) + rest);
    }
  }

  lemma {:induction false} Utf8ReadsBack(s: string)
    ensures FromUtf8(Utf8(s)) == s
  {
    if |s| > 0 {
      CharReadsBack(s[0], Utf8(s[1..]));
      Utf8ReadsBack(s[1..]);
      assert Utf8(s)[|Utf8Char(s[0])|..] == Utf8(s[1..]);
      assert s == [s[0]] + s[1..];
    }
  }

  // ----- Percent-encoding -----

  predicate Unreserved(b: byte) {
    || 0x30 <= b <= 0x39 || 0x41 <= b <= 0x5A || 0x61 <= b <= 0x7A
    || b == 0x2A || b == 0x2D || b == 0x2E || b == 0x5F
  }

  function HexDigit(d: nat): char
    requires d < 16
  {
    if d < 10 then (48 + d) as char else (55 + d) as char
  }

  function HexValue(c: char): Option<nat> {
    if '0' <= c <= '9' then Some(c as int - 48)
    else if 'A' <= c <= 'F' then Some(c as int - 55)
    else if 'a' <= c <= 'f' then Some(c as int - 87)
    else None
  }

  function EncodeByte(b: byte): string {
    if b == 0x20 then "+" else if Unreserved(b) then [b as char] else ['%', HexDigit(b / 16), HexDigit(b % 16)]
  }

  function EncodeBytes(b: Bytes): string {
    if |b| == 0 then "" else EncodeByte(b[0]) + EncodeBytes(b[1..])
  }

  /** Plus to space, then percent-decoding; any other character stands for its own UTF-8 bytes. */
  function DecodeBytes(s: string): Bytes
    decreases |s|
  {
    if |s| == 0 then []
    else if s[0] == '+' then [0x20] + DecodeBytes(s[1..])
    else if s[0] == '%' && |s| >= 3 && HexValue(s[1]).Some? && HexValue(s[2]).Some? then
      [HexByte(s[1], s[2])] + DecodeBytes(s[3..])
    else Utf8Char(s[0]) + DecodeBytes(s[1..])
  }

  function HexByte(high: char, low: char): byte
    requires HexValue(high).Some? && HexValue(low).Some?
  {
    HexValue(high).value * 16 + HexValue(low).value
  }

  function EncodePart(s: string): string {
    EncodeBytes(Utf8(s))
  }

  function DecodePart(s: string): string {
    FromUtf8(DecodeBytes(s))
  }

  /** The standard's text of a byte: letters, digits and four other characters stand for themselves. */
  lemma ByteText(b: byte, c: char)
    requires c as int == b
    ensures EncodeByte(b) == [c] <==> 'a' <= c <= 'z' || 'A' <= c <= 'Z' || '0' <= c <= '9' || c in "*-._"
    ensures c == ' ' ==> EncodeByte(b) == "+"
    ensures EncodeByte(b) != [c] && c != ' ' ==>
              && |EncodeByte(b)| == 3 && EncodeByte(b)[0] == '%'
              && UpperHex(EncodeByte(b)[1]) && UpperHex(EncodeByte(b)[2])
  {
  }

  predicate UpperHex(c: char) {
    '0' <= c <= '9' || 'A' <= c <= 'F'
  }

  /** Hexadecimal digits are read in either case. */
  lemma HexReadsEitherCase(c: char)
    ensures HexValue(c).Some? <==> '0' <= c <= '9' || 'a' <= c <= 'f' || 'A' <= c <= 'F'
    ensures HexValue(LowerChar(c)) == HexValue(c)
    ensures HexValue(c).Some? ==> HexValue(c).value < 16 && HexDigit(HexValue(c).value) == UpperChar(c)
  {
  }

  lemma ByteReadsBack(b: byte, rest: string)
    ensures DecodeBytes(EncodeByte(b) + rest) == [b] + DecodeBytes(rest)
  {
    var s := EncodeByte(b) + rest;
    if b == 0x20 || Unreserved(b) {
      assert s[1..] == rest;
    } else {
      assert s[3..] == rest;
      assert s[0] == '%' && s[1] == HexDigit(b / 16) && s[2] == HexDigit(b % 16);
    }
  }

  lemma {:induction false} BytesReadBack(b: Bytes)
    ensures DecodeBytes(EncodeBytes(b)) == b
  {
    if |b| > 0 {
      ByteReadsBack(b[0], EncodeBytes(b[1..]));
      BytesReadBack(b[1..]);
      assert b == [b[0]] + b[1..];
    }
  }

  /** Every string, whatever its characters, survives being a name or a value. */
  lemma PartReadsBack(s: string)
    ensures DecodePart(EncodePart(s)) == s
  {
    BytesReadBack(Utf8(s));
    Utf8ReadsBack(s);
  }

  /** None of the characters that structure the text. */
  predicate Plain(s: string) {
    forall i :: 0 <= i < |s| ==> s[i] != '&' && s[i] != '=' && s[i] != '?'
  }

  lemma {:induction false} EncodedIsPlain(b: Bytes)
    ensures Plain(EncodeBytes(b))
  {
    if |b| > 0 {
      EncodedIsPlain(b[1..]);
    }
  }

  // ----- Lists of pairs -----

  /** A list of named values, in order. */
  type List<K> = seq<(K, string)>

  type Params = List<string>

  /** `params.get(name)`: the first pair's value. */
  function GetParam<K(==)>(p: List<K>, name: K): Option<string> {
    if |p| == 0 then None else if p[0].0 == name then Some(p[0].1) else GetParam(p[1..], name)
  }

  function Without<K(==)>(p: List<K>, name: K): List<K> {
    if |p| == 0 then [] else (if p[0].0 == name then [] else [p[0]]) + Without(p[1..], name)
  }

  /** `params.set(name, value)`: the first pair gets the value, further ones go; without one it is appended. */
  function SetParam<K(==)>(p: List<K>, name: K, value: string): List<K> {
    if |p| == 0 then [(name, value)]
    else if p[0].0 == name then [(name, value)] + Without(p[1..], name)
    else [p[0]] + SetParam(p[1..], name, value)
  }

  lemma {:induction false} GetAfterWithout<K>(p: List<K>, name: K, other: K)
    requires other != name
    ensures GetParam(Without(p, name), other) == GetParam(p, other)
  {
    if |p| > 0 {
      GetAfterWithout(p[1..], name, other);
      if p[0].0 == name {
        assert Without(p, name) == Without(p[1..], name);
      } else {
        assert Without(p, name)[1..] == Without(p[1..], name);
      }
    }
  }

  lemma {:induction false} GetAfterSet<K>(p: List<K>, name: K, value: string, other: K)
    ensures GetParam(SetParam(p, name, value), other) == if other == name then Some(value) else GetParam(p, other)
  {
    if |p| > 0 {
      var after := SetParam(p, name, value);
      if p[0].0 == name {
        if other != name { GetAfterWithout(p[1..], name, other); }
        assert after[1..] == Without(p[1..], name);
      } else {
        GetAfterSet(p[1..], name, value, other);
        assert after[1..] == SetParam(p[1..], name, value);
      }
    }
  }

  // ----- Text -----

  function PrintPair(pair: (string, string)): string {
    EncodePart(pair.0) + "=" + EncodePart(pair.1)
  }

  function PrintPairs(p: Params): seq<string> {
    if |p| == 0 then [] else [PrintPair(p[0])] + PrintPairs(p[1..])
  }

  /** `params.toString()`. */
  function Print(p: Params): string {
    Join(PrintPairs(p), '&')
  }

  /** The piece up to the first equals sign and the piece behind it. */
  function ParsePair(s: string): (string, string) {
    var parts := Split(s, '=');
    (DecodePart(parts[0]), DecodePart(Join(parts[1..], '=')))
  }

  function ParsePairs(pieces: seq<string>): Params {
    if |pieces| == 0 then []
    else (if pieces[0] == "" then [] else [ParsePair(pieces[0])]) + ParsePairs(pieces[1..])
  }

  /** `new URLSearchParams(text)` without a leading question mark. */
  function Parse(text: string): Params {
    ParsePairs(Split(text, '&'))
  }

  lemma PairReadsBack(pair: (string, string))
    ensures ParsePair(PrintPair(pair)) == pair && Free(PrintPair(pair), '&') && |PrintPair(pair)| > 0
    ensures PrintPair(pair)[0] != '?'
  {
    var (name, value) := (EncodePart(pair.0), EncodePart(pair.1));
    EncodedIsPlain(Utf8(pair.0));
    EncodedIsPlain(Utf8(pair.1));
    SplitFirst(name, value, '=');
    SplitOne(value, '=');
    assert PrintPair(pair) == name + ['='] + value;
    PartReadsBack(pair.0);
    PartReadsBack(pair.1);
  }

  lemma {:induction false} PairsReadBack(p: Params)
    ensures |PrintPairs(p)| == |p| && ParsePairs(PrintPairs(p)) == p
    ensures forall i :: 0 <= i < |PrintPairs(p)| ==> Free(PrintPairs(p)[i], '&')
  {
    if |p| > 0 {
      PairReadsBack(p[0]);
      PairsReadBack(p[1..]);
      assert PrintPairs(p)[1..] == PrintPairs(p[1..]);
      assert p == [p[0]] + p[1..];
    }
  }

  /** Every list of parameters, with any characters, repeated or empty names, reads back from its text. */
  lemma TextReadsBack(p: Params)
    ensures Parse(Print(p)) == p
    ensures |Print(p)| > 0 ==> Print(p)[0] != '?'
  {
    PairsReadBack(p);
    if |p| > 0 {
      SplitJoin(PrintPairs(p), '&');
      PairReadsBack(p[0]);
    } else {
      assert Split("", '&') == [""];
    }
  }
}
