/**
 * The URI handling functions of ECMA-262 (section 19.2.6):
 * encodeURIComponent, decodeURIComponent and decodeURI. An escape is
 * "%" followed by two hexadecimal digits (RFC 3986, section 2.1); a
 * character outside the unescaped set is written as the escapes of its
 * UTF-8 bytes, upper-case hex.
 */
module Uri {
  import opened Js

  newtype Byte = x: int | 0 <= x < 256

  /** The characters encodeURIComponent leaves as they are: letters, digits and -_.!~*'() */
  predicate IsUnescaped(c: char) {
    || ('A' <= c <= 'Z') || ('a' <= c <= 'z') || ('0' <= c <= '9')
    || c == '-' || c == '_' || c == '.' || c == '!' || c == '~' || c == '*' || c == '\'' || c == '(' || c == ')'
  }

  /** decodeURI's reserved set plus "#": an escape of one of these is kept as written. */
  predicate IsUriReserved(c: char) {
    c == ';' || c == '/' || c == '?' || c == ':' || c == '@' || c == '&' || c == '=' || c == '+'
    || c == '$' || c == ',' || c == '#'
  }

  predicate IsHexDigit(c: char) {
    ('0' <= c <= '9') || ('A' <= c <= 'F') || ('a' <= c <= 'f')
  }

  /** One of "0123456789ABCDEF": the digits Encode writes. */
  predicate IsUpperHexDigit(c: char) {
    ('0' <= c <= '9') || ('A' <= c <= 'F')
  }

  function HexValue(c: char): (v: int)
    requires IsHexDigit(c)
    ensures 0 <= v < 16
  {
    if '0' <= c <= '9' then c as int - '0' as int
    else if 'A' <= c <= 'F' then c as int - 'A' as int + 10
    else c as int - 'a' as int + 10
  }

  function HexDigit(d: int): (c: char)
    requires 0 <= d < 16
    ensures IsHexDigit(c) && HexValue(c) == d && IsUnescaped(c)
    ensures IsUpperHexDigit(c)
  {
    if d < 10 then (d + '0' as int) as char else (d - 10 + 'A' as int) as char
  }

  /** The UTF-8 encoding of one Unicode scalar value. */
  function Utf8(c: char): (bs: seq<Byte>)
    ensures 1 <= |bs| <= 4
  {
    var cp := c as int;
    if cp < 0x80 then [cp as Byte]
    else if cp < 0x800 then [(0xC0 + cp / 64) as Byte, (0x80 + cp % 64) as Byte]
    else if cp < 0x10000 then
      [(0xE0 + cp / 4096) as Byte, (0x80 + (cp / 64) % 64) as Byte, (0x80 + cp % 64) as Byte]
    else
      [(0xF0 + cp / 262144) as Byte, (0x80 + (cp / 4096) % 64) as Byte,
       (0x80 + (cp / 64) % 64) as Byte, (0x80 + cp % 64) as Byte]
  }

  /** "%" and the two upper-case hex digits of a byte. */
  function Escape(b: Byte): (r: string)
    ensures |r| == 3 && r[0] == '%' && IsHexDigit(r[1]) && IsHexDigit(r[2])
    ensures 16 * HexValue(r[1]) + HexValue(r[2]) == b as int
    ensures IsUpperHexDigit(r[1]) && IsUpperHexDigit(r[2])
  {
    ['%', HexDigit(b as int / 16), HexDigit(b as int % 16)]
  }

  function EscapeAll(bs: seq<Byte>): (r: string)
    ensures |r| == 3 * |bs|
    decreases |bs|
  {
    if bs == [] then "" else Escape(bs[0]) + EscapeAll(bs[1..])
  }

  function EncodeChar(c: char): string {
    if IsUnescaped(c) then [c] else EscapeAll(Utf8(c))
  }

  /** encodeURIComponent(s). Every scalar value is encodable, so this never throws here. */
  function EncodeURIComponent(s: string): (r: string)
    ensures forall i :: 0 <= i < |r| ==> IsUnescaped(r[i]) || r[i] == '%'
    ensures (forall i :: 0 <= i < |s| ==> IsUnescaped(s[i])) ==> r == s
    decreases |s|
  {
    if s == [] then ""
    else
      var r := EncodeChar(s[0]) + EncodeURIComponent(s[1..]);
      assert forall i :: 0 <= i < |EncodeChar(s[0])| ==> IsUnescaped(EncodeChar(s[0])[i]) || EncodeChar(s[0])[i] == '%' by {
        EscapeAllChars(Utf8(s[0]));
      }
      assert s == [s[0]] + s[1..];
      r
  }

  lemma {:induction false} EscapeAllChars(bs: seq<Byte>)
    ensures forall i :: 0 <= i < |EscapeAll(bs)| ==> IsUnescaped(EscapeAll(bs)[i]) || EscapeAll(bs)[i] == '%'
    decreases |bs|
  {
    if bs != [] {
      EscapeAllChars(bs[1..]);
    }
  }

  /** How many leading 1 bits a byte has (at most 5 distinguished). */
  function LeadingOnes(b: Byte): nat {
    if b < 0x80 then 0
    else if b < 0xC0 then 1
    else if b < 0xE0 then 2
    else if b < 0xF0 then 3
    else if b < 0xF8 then 4
    else 5
  }

  predicate IsContinuation(b: Byte) {
    0x80 <= b < 0xC0
  }

  predicate IsScalar(cp: int) {
    (0 <= cp < 0xD800) || (0xE000 <= cp < 0x110000)
  }

  /**
   * The code point a multi-byte UTF-8 sequence stands for, or None when
   * the octets are not a valid (shortest, non-surrogate, in-range)
   * encoding. The lead byte is given with LeadingOnes == |bs| and the
   * others are continuation bytes.
   */
  function Utf8Decode(bs: seq<Byte>): (r: Option<char>)
    requires 2 <= |bs| <= 4 && LeadingOnes(bs[0]) == |bs|
    requires forall i :: 1 <= i < |bs| ==> IsContinuation(bs[i])
  {
    var cp :=
      if |bs| == 2 then (bs[0] as int - 0xC0) * 64 + (bs[1] as int - 0x80)
      else if |bs| == 3 then (bs[0] as int - 0xE0) * 4096 + (bs[1] as int - 0x80) * 64 + (bs[2] as int - 0x80)
      else (bs[0] as int - 0xF0) * 262144 + (bs[1] as int - 0x80) * 4096 + (bs[2] as int - 0x80) * 64 + (bs[3] as int - 0x80);
    var least := if |bs| == 2 then 0x80 else if |bs| == 3 then 0x800 else 0x10000;
    if least <= cp && IsScalar(cp) then Some(cp as char) else None
  }

  /** The byte of an escape at the head of s, if s starts with one. */
  function ParseEscape(s: string): (r: Option<Byte>)
    ensures r.Some? <==> |s| >= 3 && s[0] == '%' && IsHexDigit(s[1]) && IsHexDigit(s[2])
  {
    if |s| >= 3 && s[0] == '%' && IsHexDigit(s[1]) && IsHexDigit(s[2]) then
      Some((16 * HexValue(s[1]) + HexValue(s[2])) as Byte)
    else None
  }

  /** The bytes of `count` continuation escapes at the head of s. */
  function Continuations(s: string, count: nat): (r: Option<seq<Byte>>)
    requires |s| >= 3 * count
    ensures r.Some? ==> |r.value| == count && forall i :: 0 <= i < count ==> IsContinuation(r.value[i])
    decreases count
  {
    if count == 0 then Some([])
    else
      match ParseEscape(s[..3])
      case None => None
      case Some(b) =>
        if !IsContinuation(b) then None
        else
          match Continuations(s[3..], count - 1)
          case None => None
          case Some(bs) => Some([b] + bs)
  }

  function Prepend(piece: string, r: Result<string>): (out: Result<string>)
    ensures r.Ok? ==> out == Ok(piece + r.value)
    ensures r.Err? ==> out == r
  {
    match r
    case Ok(t) => Ok(piece + t)
    case Err(e) => Err(e)
  }

  /**
   * The Decode operation of ECMA-262: escapes are replaced by the
   * characters they encode; when `keepReserved` holds (decodeURI), an
   * escape of a reserved character or "#" is kept as written. Any
   * malformed escape or invalid UTF-8 throws URIError.
   */
  function Decode(s: string, keepReserved: bool): (r: Result<string>)
    ensures r.Err? ==> r.error == URIError
    decreases |s|
  {
    if s == [] then Ok("")
    else if s[0] != '%' then Prepend([s[0]], Decode(s[1..], keepReserved))
    else
      match ParseEscape(s)
      case None => Err(URIError)
      case Some(b) =>
        if b < 0x80 then
          var c := b as int as char;
          var piece := if keepReserved && IsUriReserved(c) then s[..3] else [c];
          Prepend(piece, Decode(s[3..], keepReserved))
        else
          var n := LeadingOnes(b);
          if n == 1 || n > 4 || |s| < 3 * n then Err(URIError)
          else
            match Continuations(s[3..3 * n], n - 1)
            case None => Err(URIError)
            case Some(more) =>
              match Utf8Decode([b] + more)
              case None => Err(URIError)
              case Some(c) => Prepend([c], Decode(s[3 * n..], keepReserved))
  }

  /** decodeURIComponent(s) */
  function DecodeURIComponent(s: string): Result<string> {
    Decode(s, false)
  }

  /** decodeURI(s) */
  function DecodeURI(s: string): Result<string> {
    Decode(s, true)
  }

  /** Text without "%" decodes to itself under both decoders. */
  lemma {:induction false} DecodePlain(s: string, keepReserved: bool)
    requires '%' !in s
    ensures Decode(s, keepReserved) == Ok(s)
    decreases |s|
  {
    if s != [] {
      DecodePlain(s[1..], keepReserved);
      assert [s[0]] + s[1..] == s;
    }
  }

  /**
   * A "%" not followed by two hex digits, reached while scanning, makes
   * both decoders throw URIError.
   */
  lemma {:induction false} DecodeMalformed(p: string, t: string, keepReserved: bool)
    requires '%' !in p
    requires |t| < 2 || !IsHexDigit(t[0]) || !IsHexDigit(t[1])
    ensures Decode(p + "%" + t, keepReserved) == Err(URIError)
    decreases |p|
  {
    if p != [] {
      assert (p + "%" + t)[1..] == p[1..] + "%" + t;
      DecodeMalformed(p[1..], t, keepReserved);
    } else {
      assert p + "%" + t == "%" + t;
    }
  }

  /**
   * An escape of a reserved character or "#": decodeURI keeps the three
   * characters as written, decodeURIComponent replaces them by the character.
   */
  lemma {:induction false} DecodeReservedEscape(s: string)
    requires |s| >= 3 && s[0] == '%' && IsHexDigit(s[1]) && IsHexDigit(s[2])
    requires IsUriReserved((16 * HexValue(s[1]) + HexValue(s[2])) as char)
    ensures Decode(s, true) == Prepend(s[..3], Decode(s[3..], true))
    ensures Decode(s, false) == Prepend([(16 * HexValue(s[1]) + HexValue(s[2])) as char], Decode(s[3..], false))
  {
    assert ParseEscape(s) == Some((16 * HexValue(s[1]) + HexValue(s[2])) as Byte);
  }

  /** The escapes of a character's UTF-8 bytes decode back to that character. */
  lemma {:induction false} DecodeEscapedChar(c: char, rest: string, keepReserved: bool)
    requires !IsUnescaped(c) && !(keepReserved && IsUriReserved(c))
    ensures Decode(EscapeAll(Utf8(c)) + rest, keepReserved) == Prepend([c], Decode(rest, keepReserved))
  {
    var bs := Utf8(c);
    var s := EscapeAll(bs) + rest;
    var n := |bs|;
    EscapeAllParse(bs, rest);
    Utf8Lead(c);
    if n == 1 {
      assert s[3..] == rest;
      assert (bs[0] as int) as char == c;
    } else {
      assert s[3..3 * n] == EscapeAll(bs[1..]) by {
        assert EscapeAll(bs) == Escape(bs[0]) + EscapeAll(bs[1..]);
      }
      ContinuationsOfEscapes(bs[1..]);
      assert [bs[0]] + bs[1..] == bs;
      Utf8RoundTrip(c);
      assert s[3 * n..] == rest;
    }
  }

  /** The first escape of EscapeAll(bs) + rest parses as bs[0]. */
  lemma {:induction false} EscapeAllParse(bs: seq<Byte>, rest: string)
    requires bs != []
    ensures var s := EscapeAll(bs) + rest;
      s != [] && s[0] == '%' && ParseEscape(s) == Some(bs[0]) && |s| == 3 * |bs| + |rest|
  {
    var s := EscapeAll(bs) + rest;
    assert s == Escape(bs[0]) + (EscapeAll(bs[1..]) + rest);
    var e := Escape(bs[0]);
    assert s[0] == e[0] && s[1] == e[1] && s[2] == e[2];
  }

  lemma {:induction false} ContinuationsOfEscapes(bs: seq<Byte>)
    requires forall i :: 0 <= i < |bs| ==> IsContinuation(bs[i])
    ensures Continuations(EscapeAll(bs), |bs|) == Some(bs)
    decreases |bs|
  {
    if bs != [] {
      var s := EscapeAll(bs);
      assert s == Escape(bs[0]) + EscapeAll(bs[1..]);
      assert s[..3] == Escape(bs[0]);
      assert s[3..] == EscapeAll(bs[1..]);
      ContinuationsOfEscapes(bs[1..]);
      assert [bs[0]] + bs[1..] == bs;
    }
  }

  /** The shape of a UTF-8 encoding: its lead byte announces its length, the rest are continuations. */
  lemma {:induction false} Utf8Lead(c: char)
    ensures var bs := Utf8(c);
      && (|bs| == 1 <==> c as int < 0x80)
      && (|bs| == 1 ==> bs[0] as int == c as int)
      && (|bs| > 1 ==> LeadingOnes(bs[0]) == |bs|)
      && (forall i :: 1 <= i < |bs| ==> IsContinuation(bs[i]))
  {
  }

  /** Decoding a multi-byte UTF-8 encoding gives the character back. */
  lemma {:induction false} Utf8RoundTrip(c: char)
    requires c as int >= 0x80
    ensures var bs := Utf8(c);
      2 <= |bs| <= 4 && LeadingOnes(bs[0]) == |bs|
      && (forall i :: 1 <= i < |bs| ==> IsContinuation(bs[i]))
      && Utf8Decode(bs) == Some(c)
  {
    Utf8Lead(c);
    var cp := c as int;
    var bs := Utf8(c);
    if cp < 0x800 {
      assert cp == (cp / 64) * 64 + cp % 64;
    } else if cp < 0x10000 {
      assert cp / 64 == (cp / 4096) * 64 + (cp / 64) % 64;
      assert cp == (cp / 64) * 64 + cp % 64;
    } else {
      assert cp / 64 == (cp / 4096) * 64 + (cp / 64) % 64;
      assert cp / 4096 == (cp / 262144) * 64 + (cp / 4096) % 64;
      assert cp == (cp / 64) * 64 + cp % 64;
    }
  }

  /** decodeURIComponent undoes encodeURIComponent. */
  lemma {:induction false} DecodeEncode(s: string)
    ensures DecodeURIComponent(EncodeURIComponent(s)) == Ok(s)
    decreases |s|
  {
    if s != [] {
      DecodeEncode(s[1..]);
      var c := s[0];
      var rest := EncodeURIComponent(s[1..]);
      assert EncodeURIComponent(s) == EncodeChar(c) + rest;
      if IsUnescaped(c) {
        assert (EncodeChar(c) + rest)[1..] == rest;
      } else {
        DecodeEscapedChar(c, rest, false);
      }
      assert [c] + s[1..] == s;
    }
  }
}
