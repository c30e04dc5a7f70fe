/**
 * encodeURIComponent (ECMAScript) over Dafny strings: every character outside the
 * unreserved set of section 2.3 of RFC 3986, widened by `! ~ * ' ( )`, is replaced by the
 * percent-encoded (section 2.1 of RFC 3986) bytes of its UTF-8 form, in upper-case hex.
 */
module UriEncoding {
  import opened Wrappers

  type Byte = b: int | 0 <= b < 256

  /** The characters encodeURIComponent leaves as they are. */
  predicate Unreserved(c: char) {
    || ('A' <= c <= 'Z') || ('a' <= c <= 'z') || ('0' <= c <= '9')
    || c == '-' || c == '_' || c == '.' || c == '!' || c == '~' || c == '*'
    || c == '\'' || c == '(' || c == ')'
  }

  /** The UTF-8 encoding of one Unicode scalar value. */
  function Utf8(c: char): (r: seq<Byte>)
    ensures 1 <= |r| <= 4
    ensures |r| == 1 <==> c as int < 0x80
    ensures |r| == 1 ==> r[0] == c as int
    ensures |r| > 1 ==> forall i :: 0 <= i < |r| ==> r[i] >= 0x80
  {
    var n := c as int;
    if n < 0x80 then [n]
    else if n < 0x800 then [0xC0 + n / 64, 0x80 + n % 64]
    else if n < 0x10000 then [0xE0 + n / 4096, 0x80 + (n / 64) % 64, 0x80 + n % 64]
    else [0xF0 + n / 262144, 0x80 + (n / 4096) % 64, 0x80 + (n / 64) % 64, 0x80 + n % 64]
  }

  function Utf8Encode(s: string): seq<Byte> {
    if s == [] then [] else Utf8(s[0]) + Utf8Encode(s[1..])
  }

  function HexDigit(d: int): (c: char)
    requires 0 <= d < 16
  {
    "0123456789ABCDEF"[d]
  }

  /** `%XY` for one byte. */
  function EscapeByte(b: Byte): (r: string) {
    ['%', HexDigit(b / 16), HexDigit(b % 16)]
  }

  function EscapeBytes(bs: seq<Byte>): string {
    if bs == [] then [] else EscapeByte(bs[0]) + EscapeBytes(bs[1..])
  }

  function EncodeChar(c: char): string {
    if Unreserved(c) then [c] else EscapeBytes(Utf8(c))
  }

  /** encodeURIComponent. */
  function EncodeUriComponent(s: string): string {
    if s == [] then [] else EncodeChar(s[0]) + EncodeUriComponent(s[1..])
  }

  /** The value of a hex digit of either case, as a percent-decoder reads it. */
  function HexValue(c: char): Option<Byte> {
    if '0' <= c <= '9' then Some(c as int - '0' as int)
    else if 'A' <= c <= 'F' then Some(c as int - 'A' as int + 10)
    else if 'a' <= c <= 'f' then Some(c as int - 'a' as int + 10)
    else None
  }

  /** Percent-decoding into bytes: `%XY` gives one byte, any other character its UTF-8 form;
      a `%` not followed by two hex digits is malformed. */
  function PercentDecode(s: string): Option<seq<Byte>> {
    if s == [] then Some([])
    else if s[0] == '%' then
      if |s| < 3 then None
      else match (HexValue(s[1]), HexValue(s[2]), PercentDecode(s[3..]))
        case (Some(hi), Some(lo), Some(rest)) => Some([16 * hi + lo] + rest)
        case _ => None
    else match PercentDecode(s[1..])
      case Some(rest) => Some(Utf8(s[0]) + rest)
      case None => None
  }

  /** Every character of the encoding is unreserved, `%` or an upper-case hex digit. */
  predicate EncodedChar(c: char) {
    Unreserved(c) || c == '%'
  }

  lemma HexRoundTrip(d: int)
    requires 0 <= d < 16
    ensures HexValue(HexDigit(d)) == Some(d)
  {
  }

  /** `bs` in front of a decoding, when the decoding succeeded. */
  function Prepend(bs: seq<Byte>, o: Option<seq<Byte>>): Option<seq<Byte>> {
    match o
    case Some(r) => Some(bs + r)
    case None => None
  }

  lemma PrependTwice(a: seq<Byte>, b: seq<Byte>, o: Option<seq<Byte>>)
    ensures Prepend(a, Prepend(b, o)) == Prepend(a + b, o)
  {
    match o
    case Some(r) => assert a + (b + r) == (a + b) + r;
    case None =>
  }

  lemma EscapeByteDecode(b: Byte, rest: string)
    ensures PercentDecode(EscapeByte(b) + rest) == Prepend([b], PercentDecode(rest))
  {
    var s := EscapeByte(b) + rest;
    assert s[0] == '%' && s[1] == HexDigit(b / 16) && s[2] == HexDigit(b % 16);
    assert s[3..] == rest;
    HexRoundTrip(b / 16);
    HexRoundTrip(b % 16);
  }

  lemma {:induction false} EscapeBytesDecode(bs: seq<Byte>, rest: string)
    ensures PercentDecode(EscapeBytes(bs) + rest) == Prepend(bs, PercentDecode(rest))
  {
    if bs == [] {
      assert EscapeBytes(bs) + rest == rest;
      match PercentDecode(rest)
      case Some(r) => assert bs + r == r;
      case None =>
    } else {
      var tail := EscapeBytes(bs[1..]) + rest;
      assert EscapeBytes(bs) + rest == EscapeByte(bs[0]) + tail;
      EscapeBytesDecode(bs[1..], rest);
      EscapeByteDecode(bs[0], tail);
      PrependTwice([bs[0]], bs[1..], PercentDecode(rest));
      assert [bs[0]] + bs[1..] == bs;
    }
  }

  /** Percent-decoding undoes encodeURIComponent, giving back the UTF-8 bytes of the text. */
  lemma {:induction false} DecodeEncode(s: string)
    ensures PercentDecode(EncodeUriComponent(s)) == Some(Utf8Encode(s))
  {
    if s != [] {
      var c := s[0];
      var tail := EncodeUriComponent(s[1..]);
      DecodeEncode(s[1..]);
      if Unreserved(c) {
        assert EncodeUriComponent(s) == [c] + tail;
        assert ([c] + tail)[1..] == tail;
      } else {
        EscapeBytesDecode(Utf8(c), tail);
      }
    }
  }

  lemma {:induction false} EscapeBytesChars(bs: seq<Byte>)
    ensures forall i :: 0 <= i < |EscapeBytes(bs)| ==> EncodedChar(EscapeBytes(bs)[i])
  {
    if bs != [] {
      EscapeBytesChars(bs[1..]);
      var e := EscapeBytes(bs);
      forall i | 0 <= i < |e| ensures EncodedChar(e[i]) {
        if i >= 3 {
          assert e[i] == EscapeBytes(bs[1..])[i - 3];
        }
      }
    }
  }

  /** The encoding holds only unreserved characters and `%`; in particular no `/`, so an
      encoded object path is a single URL path segment. */
  lemma EncodeCharChars(c: char)
    ensures forall i :: 0 <= i < |EncodeChar(c)| ==> EncodedChar(EncodeChar(c)[i])
  {
    if !Unreserved(c) {
      EscapeBytesChars(Utf8(c));
    }
  }

  lemma {:induction false} EncodedCharsOnly(s: string)
    ensures forall i :: 0 <= i < |EncodeUriComponent(s)| ==> EncodedChar(EncodeUriComponent(s)[i])
    ensures '/' !in EncodeUriComponent(s)
  {
    if s != [] {
      EncodedCharsOnly(s[1..]);
      var head, tail := EncodeChar(s[0]), EncodeUriComponent(s[1..]);
      EncodeCharChars(s[0]);
      var e := EncodeUriComponent(s);
      assert e == head + tail;
      forall i | 0 <= i < |e| ensures EncodedChar(e[i]) {
        if i >= |head| {
          assert e[i] == tail[i - |head|];
        } else {
          assert e[i] == head[i];
        }
      }
      assert !EncodedChar('/');
    }
  }

  /** Unreserved text is its own encoding. */
  lemma {:induction false} UnreservedUnchanged(s: string)
    requires forall i :: 0 <= i < |s| ==> Unreserved(s[i])
    ensures EncodeUriComponent(s) == s
  {
    if s != [] {
      UnreservedUnchanged(s[1..]);
      assert s == [s[0]] + s[1..];
    }
  }
}
