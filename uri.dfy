/**
 * `encodeURIComponent` (ECMA-262 section 19.2.6.5, RFC 3986 section 2.1):
 * every character outside `A-Z a-z 0-9 - _ . ! ~ * ' ( )` is written as its
 * UTF-8 bytes, each as `%` and two upper-case hex digits.
 */
module UriEncoding {

  import opened Wrappers

  /** The characters `encodeURIComponent` leaves as they are. */
  predicate IsUnreserved(c: char) {
    || ('A' <= c <= 'Z') || ('a' <= c <= 'z') || ('0' <= c <= '9')
    || c == '-' || c == '_' || c == '.' || c == '!' || c == '~' || c == '*' || c == '\'' || c == '(' || c == ')'
  }

  type Byte = b: int | 0 <= b < 256

  /** The UTF-8 encoding of one Unicode scalar value (RFC 3629 section 3). */
  function Utf8(c: char): (bytes: seq<Byte>)
    ensures 1 <= |bytes| <= 4
    ensures |bytes| == 1 <==> c as int < 0x80
    ensures |bytes| == 1 ==> bytes[0] == c as int
    ensures forall i :: 0 < i < |bytes| ==> 0x80 <= bytes[i] < 0xC0
  {
    var cp := c as int;
    if cp < 0x80 then [cp]
    else if cp < 0x800 then [0xC0 + cp / 0x40, 0x80 + cp % 0x40]
    else if cp < 0x1_0000 then [0xE0 + cp / 0x1000, 0x80 + (cp / 0x40) % 0x40, 0x80 + cp % 0x40]
    else [0xF0 + cp / 0x4_0000, 0x80 + (cp / 0x1000) % 0x40, 0x80 + (cp / 0x40) % 0x40, 0x80 + cp % 0x40]
  }

  /** An upper-case hexadecimal digit. */
  function HexDigit(d: int): (c: char)
    requires 0 <= d < 16
    ensures IsUnreserved(c)
  {
    if d < 10 then (48 + d) as char else (55 + d) as char
  }

  /** `%XX` for one byte. */
  function PercentEscape(b: Byte): (r: string)
    ensures |r| == 3 && r[0] == '%' && IsUnreserved(r[1]) && IsUnreserved(r[2])
  {
    ['%', HexDigit(b / 16), HexDigit(b % 16)]
  }

  /** Text made only of unreserved characters and `%`, as every encoder output is. */
  predicate IsEncoded(s: string) {
    forall i :: 0 <= i < |s| ==> IsUnreserved(s[i]) || s[i] == '%'
  }

  function EscapeBytes(bytes: seq<Byte>): (r: string)
    ensures |r| == 3 * |bytes|
    ensures IsEncoded(r)
    decreases |bytes|
  {
    if bytes == [] then [] else PercentEscape(bytes[0]) + EscapeBytes(bytes[1..])
  }

  /** One character's share of the output. */
  function EncodeChar(c: char): (r: string)
    ensures IsEncoded(r)
  {
    if IsUnreserved(c) then [c] else EscapeBytes(Utf8(c))
  }

  /**
   * `encodeURIComponent(s)`. What comes out is made only of unreserved
   * characters and `%`, so it never holds `?`, `&`, `=`, `/` or `#`.
   */
  function EncodeUriComponent(s: string): (r: string)
    ensures IsEncoded(r)
    ensures |r| >= |s|
    decreases |s|
  {
    if s == [] then [] else EncodeChar(s[0]) + EncodeUriComponent(s[1..])
  }

  /**
   * Whatever the input, the encoding holds none of the characters that
   * delimit a URL's query: no `?`, `&`, `=`, `/` or `#`.
   */
  lemma EncodingHoldsNoDelimiter(s: string)
    ensures '?' !in EncodeUriComponent(s) && '&' !in EncodeUriComponent(s) && '=' !in EncodeUriComponent(s)
    ensures '/' !in EncodeUriComponent(s) && '#' !in EncodeUriComponent(s)
  {
    var r := EncodeUriComponent(s);
    EncodedOmits(r, '?');
    EncodedOmits(r, '&');
    EncodedOmits(r, '=');
    EncodedOmits(r, '/');
    EncodedOmits(r, '#');
  }

  /** Encoded text holds no character that is neither unreserved nor `%`. */
  lemma EncodedOmits(r: string, c: char)
    requires IsEncoded(r) && !IsUnreserved(c) && c != '%'
    ensures c !in r
  {
  }

  predicate IsHexDigit(c: char) {
    ('0' <= c <= '9') || ('A' <= c <= 'F') || ('a' <= c <= 'f')
  }

  function HexValue(c: char): (v: int)
    requires IsHexDigit(c)
    ensures 0 <= v < 16
  {
    if c <= '9' then c as int - 48 else if c <= 'F' then c as int - 55 else c as int - 87
  }

  predicate IsAscii(s: string) {
    forall i :: 0 <= i < |s| ==> s[i] as int < 0x80
  }

  /**
   * `decodeURIComponent` for text whose escapes are single ASCII bytes; an
   * escape that is malformed or starts a multi-byte sequence gives `None`.
   */
  function DecodeAsciiComponent(s: string): Option<string>
    decreases |s|
  {
    if s == [] then Some([])
    else if s[0] == '%' then
      if |s| >= 3 && IsHexDigit(s[1]) && IsHexDigit(s[2]) && 16 * HexValue(s[1]) + HexValue(s[2]) < 0x80 then
        match DecodeAsciiComponent(s[3..])
        case Some(rest) => Some([(16 * HexValue(s[1]) + HexValue(s[2])) as char] + rest)
        case None => None
      else None
    else
      match DecodeAsciiComponent(s[1..])
      case Some(rest) => Some([s[0]] + rest)
      case None => None
  }

  /** Decoding one encoded ASCII character in front of the rest. */
  lemma DecodeEncodedChar(c: char, rest: string)
    requires c as int < 0x80
    ensures DecodeAsciiComponent(EncodeChar(c) + rest) ==
      match DecodeAsciiComponent(rest)
      case Some(r) => Some([c] + r)
      case None => None
  {
    var e := EncodeChar(c) + rest;
    if IsUnreserved(c) {
      assert e[1..] == rest;
    } else {
      var b := c as int;
      assert Utf8(c) == [b];
      assert EscapeBytes([b]) == PercentEscape(b) + EscapeBytes([]);
      assert e[1] == HexDigit(b / 16) && e[2] == HexDigit(b % 16);
      assert HexValue(HexDigit(b / 16)) == b / 16;
      assert HexValue(HexDigit(b % 16)) == b % 16;
      assert e[3..] == rest;
    }
  }

  /** `decodeURIComponent(encodeURIComponent(s)) == s` for ASCII text. */
  lemma {:induction false} AsciiRoundTrip(s: string)
    requires IsAscii(s)
    ensures DecodeAsciiComponent(EncodeUriComponent(s)) == Some(s)
    decreases |s|
  {
    if s != [] {
      AsciiRoundTrip(s[1..]);
      DecodeEncodedChar(s[0], EncodeUriComponent(s[1..]));
      assert [s[0]] + s[1..] == s;
    }
  }
}
