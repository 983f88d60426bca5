/** Percent-encoding of text as the code uses it: Python's `urlencode` (each key and value passed
    through `quote_plus`) for the biomodel search query string, and JavaScript's
    `encodeURIComponent` for the chat prompt. Both first encode the text as UTF-8 and then write
    every byte outside a safe set as `%XX` with upper-case hexadecimal digits. */
module UriEncoding {
  import opened Common
  import opened Strings

  type Byte = x: int | 0 <= x < 256

  // ---------------------------------------------------------------- UTF-8

  /** A continuation byte `10xxxxxx`. */
  predicate IsCont(b: Byte) {
    0x80 <= b < 0xC0
  }

  /** The UTF-8 encoding of one Unicode scalar value (section 3 of RFC 3629). */
  function Utf8Char(c: char): (bs: seq<Byte>)
    ensures 1 <= |bs| <= 4
    ensures (|bs| == 1) <==> (c as int < 0x80)
  {
    var cp := c as int;
    if cp < 0x80 then [cp]
    else if cp < 0x800 then [0xC0 + cp / 64, 0x80 + cp % 64]
    else if cp < 0x10000 then [0xE0 + cp / 4096, 0x80 + (cp / 64) % 64, 0x80 + cp % 64]
    else [0xF0 + cp / 262144, 0x80 + (cp / 4096) % 64, 0x80 + (cp / 64) % 64, 0x80 + cp % 64]
  }

  function Utf8Encode(s: string): seq<Byte> {
    if |s| == 0 then [] else Utf8Char(s[0]) + Utf8Encode(s[1..])
  }

  /** A code point that is a Unicode scalar value, i.e. a Dafny `char`. */
  predicate IsScalar(cp: int) {
    (0 <= cp < 0xD800) || (0xE000 <= cp < 0x110000)
  }

  /** The first character encoded at the head of `bs` and the number of bytes it takes, when the
      head is a well-formed, shortest-form UTF-8 sequence. */
  function DecodeHead(bs: seq<Byte>): (r: Option<(char, nat)>)
    requires |bs| > 0
    ensures r.Some? ==> 1 <= r.value.1 <= |bs|
  {
    var b0: int := bs[0];
    var b1: int := if |bs| >= 2 then bs[1] else 0;
    var b2: int := if |bs| >= 3 then bs[2] else 0;
    var b3: int := if |bs| >= 4 then bs[3] else 0;
    if b0 < 0x80 then Some((b0 as char, 1))
    else if 0xC0 <= b0 < 0xE0 && |bs| >= 2 && IsCont(bs[1]) then
      var cp := (b0 - 0xC0) * 64 + (b1 - 0x80);
      if cp >= 0x80 then Some((cp as char, 2)) else None
    else if 0xE0 <= b0 < 0xF0 && |bs| >= 3 && IsCont(bs[1]) && IsCont(bs[2]) then
      var cp := (b0 - 0xE0) * 4096 + (b1 - 0x80) * 64 + (b2 - 0x80);
      if cp >= 0x800 && IsScalar(cp) then Some((cp as char, 3)) else None
    else if 0xF0 <= b0 < 0xF8 && |bs| >= 4 && IsCont(bs[1]) && IsCont(bs[2]) && IsCont(bs[3]) then
      var cp := (b0 - 0xF0) * 262144 + (b1 - 0x80) * 4096 + (b2 - 0x80) * 64 + (b3 - 0x80);
      if 0x10000 <= cp && IsScalar(cp) then Some((cp as char, 4)) else None
    else None
  }

  /** UTF-8 decoding; `None` on a malformed sequence. */
  function Utf8Decode(bs: seq<Byte>): Option<string>
    decreases |bs|
  {
    if |bs| == 0 then Some([])
    else match DecodeHead(bs)
      case None => None
      case Some((c, n)) =>
        match Utf8Decode(bs[n..])
        case None => None
        case Some(rest) => Some([c] + rest)
  }

  /** The bytes of one encoded character decode back to that character. */
  lemma Utf8CharHead(c: char, rest: seq<Byte>)
    ensures DecodeHead(Utf8Char(c) + rest) == Some((c, |Utf8Char(c)|))
  {
    var cp := c as int;
    if cp < 0x80 {
    } else if cp < 0x800 {
      Utf8TwoBytes(c, rest);
    } else if cp < 0x10000 {
      Utf8ThreeBytes(c, rest);
    } else {
      Utf8FourBytes(c, rest);
    }
  }

  lemma Utf8TwoBytes(c: char, rest: seq<Byte>)
    requires 0x80 <= c as int < 0x800
    ensures DecodeHead(Utf8Char(c) + rest) == Some((c, 2))
  {
    var cp := c as int;
    var hi, lo := cp / 64, cp % 64;
    assert hi * 64 + lo == cp;
    var bs := Utf8Char(c) + rest;
    assert bs[0] == 0xC0 + hi && bs[1] == 0x80 + lo;
  }

  lemma Utf8ThreeBytes(c: char, rest: seq<Byte>)
    requires 0x800 <= c as int < 0x10000
    ensures DecodeHead(Utf8Char(c) + rest) == Some((c, 3))
  {
    var cp := c as int;
    var hi, mid, lo := cp / 4096, (cp / 64) % 64, cp % 64;
    assert cp / 64 == hi * 64 + mid;
    assert hi * 4096 + mid * 64 + lo == cp;
    var bs := Utf8Char(c) + rest;
    assert bs[0] == 0xE0 + hi && bs[1] == 0x80 + mid && bs[2] == 0x80 + lo;
    assert IsScalar(cp);
  }

  lemma Utf8FourBytes(c: char, rest: seq<Byte>)
    requires 0x10000 <= c as int
    ensures DecodeHead(Utf8Char(c) + rest) == Some((c, 4))
  {
    var cp := c as int;
    var top, hi, mid, lo := cp / 262144, (cp / 4096) % 64, (cp / 64) % 64, cp % 64;
    assert cp / 64 == (cp / 4096) * 64 + mid;
    assert cp / 4096 == top * 64 + hi;
    assert top * 262144 + hi * 4096 + mid * 64 + lo == cp;
    var bs := Utf8Char(c) + rest;
    assert bs[0] == 0xF0 + top && bs[1] == 0x80 + hi && bs[2] == 0x80 + mid && bs[3] == 0x80 + lo;
    assert IsScalar(cp);
  }

  /** UTF-8 decoding undoes UTF-8 encoding. */
  lemma {:induction false} Utf8RoundTrip(s: string)
    ensures Utf8Decode(Utf8Encode(s)) == Some(s)
  {
    if |s| > 0 {
      var head := Utf8Char(s[0]);
      var bs := Utf8Encode(s);
      Utf8CharHead(s[0], Utf8Encode(s[1..]));
      assert bs[|head|..] == Utf8Encode(s[1..]);
      Utf8RoundTrip(s[1..]);
      assert [s[0]] + s[1..] == s;
    }
  }

  // ---------------------------------------------------------------- percent-encoding

  /** The two encoders the code uses. */
  datatype Mode =
    | Form       // Python `quote_plus`: keeps A-Z a-z 0-9 `_.-~`, writes a space as `+`
    | Component  // JavaScript `encodeURIComponent`: keeps A-Z a-z 0-9 `-_.!~*'()`

  predicate IsAsciiAlnum(b: Byte) {
    ('0' as int <= b <= '9' as int) || ('A' as int <= b <= 'Z' as int) || ('a' as int <= b <= 'z' as int)
  }

  /** The bytes written as themselves. */
  predicate Safe(mode: Mode, b: Byte) {
    IsAsciiAlnum(b) ||
    match mode
    case Form => b in {'_' as int, '.' as int, '-' as int, '~' as int}
    case Component => b in {'-' as int, '_' as int, '.' as int, '!' as int, '~' as int,
                            '*' as int, '\'' as int, '(' as int, ')' as int}
  }

  const HexUpper: string := "0123456789ABCDEF"

  /** One byte as the encoder writes it. */
  function EncodeByte(mode: Mode, b: Byte): (r: string)
    ensures |r| == 1 || |r| == 3
  {
    if Safe(mode, b) then [b as char]
    else if mode == Form && b == 0x20 then "+"
    else ['%', HexUpper[b / 16], HexUpper[b % 16]]
  }

  function EncodeBytes(mode: Mode, bs: seq<Byte>): string {
    if |bs| == 0 then [] else EncodeByte(mode, bs[0]) + EncodeBytes(mode, bs[1..])
  }

  /** The percent-encoding of a text: its UTF-8 bytes, each written by `EncodeByte`. */
  function Encode(mode: Mode, s: string): string {
    EncodeBytes(mode, Utf8Encode(s))
  }

  /** `quote_plus(s)`. */
  function QuotePlus(s: string): string {
    Encode(Form, s)
  }

  /** `encodeURIComponent(s)`. */
  function EncodeUriComponent(s: string): string {
    Encode(Component, s)
  }

  function HexValue(c: char): Option<nat> {
    if '0' <= c <= '9' then Some(c as int - '0' as int)
    else if 'A' <= c <= 'F' then Some(c as int - 'A' as int + 10)
    else if 'a' <= c <= 'f' then Some(c as int - 'a' as int + 10)
    else None
  }

  /** Percent-decoding to bytes: `%XX` is a byte, `+` a space in form mode, any other ASCII
      character its own byte; a non-ASCII character or a broken escape is an error. */
  function DecodeBytes(mode: Mode, s: string): Option<seq<Byte>>
    decreases |s|
  {
    if |s| == 0 then Some([])
    else
      var step: Option<(Byte, nat)> :=
        if s[0] == '%' then
          if |s| >= 3 && HexValue(s[1]).Some? && HexValue(s[2]).Some? && HexValue(s[1]).value < 16
             && HexValue(s[2]).value < 16
          then Some((HexValue(s[1]).value * 16 + HexValue(s[2]).value, 3))
          else None
        else if s[0] == '+' && mode == Form then Some((0x20, 1))
        else if s[0] as int < 0x80 then Some((s[0] as int, 1))
        else None;
      match step
      case None => None
      case Some((b, n)) =>
        match DecodeBytes(mode, s[n..])
        case None => None
        case Some(rest) => Some([b] + rest)
  }

  /** Decoding a whole encoded text: percent-decoding, then UTF-8 decoding. */
  function Decode(mode: Mode, s: string): Option<string> {
    match DecodeBytes(mode, s)
    case None => None
    case Some(bs) => Utf8Decode(bs)
  }

  lemma EncodeByteHead(mode: Mode, b: Byte, rest: string)
    ensures DecodeBytes(mode, EncodeByte(mode, b) + rest) ==
      match DecodeBytes(mode, rest)
      case None => None
      case Some(tail) => Some([b] + tail)
  {
    if Safe(mode, b) {
      SafeByteHead(mode, b, rest);
    } else if mode == Form && b == 0x20 {
      SpaceByteHead(rest);
    } else {
      EscapeByteHead(mode, b, rest);
    }
  }

  /** A kept byte decodes as itself. */
  lemma SafeByteHead(mode: Mode, b: Byte, rest: string)
    requires Safe(mode, b)
    ensures DecodeBytes(mode, [b as char] + rest) ==
      match DecodeBytes(mode, rest)
      case None => None
      case Some(tail) => Some([b] + tail)
  {
    var s := [b as char] + rest;
    assert s[0] == b as char && s[1..] == rest;
  }

  /** The `+` written for a space in form mode decodes as a space. */
  lemma SpaceByteHead(rest: string)
    ensures DecodeBytes(Form, "+" + rest) ==
      match DecodeBytes(Form, rest)
      case None => None
      case Some(tail) => Some([0x20 as Byte] + tail)
  {
    var s := "+" + rest;
    assert s[0] == '+' && s[1..] == rest;
  }

  /** A `%XX` escape decodes as the byte it writes. */
  lemma EscapeByteHead(mode: Mode, b: Byte, rest: string)
    ensures DecodeBytes(mode, ['%', HexUpper[b / 16], HexUpper[b % 16]] + rest) ==
      match DecodeBytes(mode, rest)
      case None => None
      case Some(tail) => Some([b] + tail)
  {
    var s := ['%', HexUpper[b / 16], HexUpper[b % 16]] + rest;
    assert s[0] == '%' && s[1] == HexUpper[b / 16] && s[2] == HexUpper[b % 16] && s[3..] == rest;
    HexDigit(b / 16);
    HexDigit(b % 16);
  }

  /** Each upper-case hexadecimal digit reads back as its value. */
  lemma HexDigit(d: nat)
    requires d < 16
    ensures HexValue(HexUpper[d]) == Some(d)
  {
  }

  /** Percent-decoding undoes percent-encoding, byte for byte. */
  lemma {:induction false} BytesRoundTrip(mode: Mode, bs: seq<Byte>)
    ensures DecodeBytes(mode, EncodeBytes(mode, bs)) == Some(bs)
  {
    if |bs| > 0 {
      EncodeByteHead(mode, bs[0], EncodeBytes(mode, bs[1..]));
      BytesRoundTrip(mode, bs[1..]);
      assert [bs[0]] + bs[1..] == bs;
    }
  }

  /** Decoding an encoded text gives the text back, in both modes. */
  lemma EncodeRoundTrip(mode: Mode, s: string)
    ensures Decode(mode, Encode(mode, s)) == Some(s)
  {
    BytesRoundTrip(mode, Utf8Encode(s));
    Utf8RoundTrip(s);
  }

  /** A character the encoder may write: a byte it keeps, `%` of an escape, or `+`. */
  predicate EncoderOutput(mode: Mode, c: char) {
    c as int < 0x80 && (Safe(mode, c as int) || c == '%' || c == '+')
  }

  /** Only ASCII comes out of the encoder, and never a raw space. */
  lemma {:induction false} EncodeBytesAscii(mode: Mode, bs: seq<Byte>)
    ensures forall i :: 0 <= i < |EncodeBytes(mode, bs)| ==> EncoderOutput(mode, EncodeBytes(mode, bs)[i])
  {
    if |bs| > 0 {
      EncodeBytesAscii(mode, bs[1..]);
      ByteOutput(mode, bs[0]);
      OutputAppend(mode, EncodeByte(mode, bs[0]), EncodeBytes(mode, bs[1..]));
    }
  }

  /** Every character written for one byte is one the encoder may write. */
  lemma ByteOutput(mode: Mode, b: Byte)
    ensures forall i :: 0 <= i < |EncodeByte(mode, b)| ==> EncoderOutput(mode, EncodeByte(mode, b)[i])
  {
    var e := EncodeByte(mode, b);
    if !Safe(mode, b) && !(mode == Form && b == 0x20) {
      assert e[0] == '%';
      assert e[1] in HexUpper && e[2] in HexUpper;
    }
  }

  lemma OutputAppend(mode: Mode, a: string, b: string)
    requires forall i :: 0 <= i < |a| ==> EncoderOutput(mode, a[i])
    requires forall i :: 0 <= i < |b| ==> EncoderOutput(mode, b[i])
    ensures forall i :: 0 <= i < |a + b| ==> EncoderOutput(mode, (a + b)[i])
  {
    forall i | 0 <= i < |a + b|
      ensures EncoderOutput(mode, (a + b)[i])
    {
      if i >= |a| {
        assert (a + b)[i] == b[i - |a|];
      }
    }
  }

  /** A character the encoder never writes (such as `&`, `=`, `/`, `?` or a space) does not occur
      in an encoded text, so it can delimit encoded texts. */
  lemma EncodeAvoids(mode: Mode, s: string, c: char)
    requires !EncoderOutput(mode, c)
    ensures c !in Encode(mode, s)
  {
    EncodeBytesAscii(mode, Utf8Encode(s));
  }
  /** Encoding works character by character: the encoding of a concatenation is the
      concatenation of the encodings. */
  lemma {:induction false} EncodeAppend(mode: Mode, a: string, b: string)
    ensures Encode(mode, a + b) == Encode(mode, a) + Encode(mode, b)
  {
    Utf8Append(a, b);
    EncodeBytesAppend(mode, Utf8Encode(a), Utf8Encode(b));
  }

  lemma {:induction false} Utf8Append(a: string, b: string)
    ensures Utf8Encode(a + b) == Utf8Encode(a) + Utf8Encode(b)
  {
    if |a| > 0 {
      assert (a + b)[1..] == a[1..] + b;
      Utf8Append(a[1..], b);
    } else {
      assert a + b == b;
    }
  }

  lemma {:induction false} EncodeBytesAppend(mode: Mode, xs: seq<Byte>, ys: seq<Byte>)
    ensures EncodeBytes(mode, xs + ys) == EncodeBytes(mode, xs) + EncodeBytes(mode, ys)
  {
    if |xs| > 0 {
      assert (xs + ys)[1..] == xs[1..] + ys;
      EncodeBytesAppend(mode, xs[1..], ys);
    } else {
      assert xs + ys == ys;
    }
  }

  /** Letters and digits pass through unchanged, in both modes. */
  lemma {:induction false} EncodeAlnum(mode: Mode, s: string)
    requires forall i :: 0 <= i < |s| ==> s[i] as int < 0x80 && IsAsciiAlnum(s[i] as int)
    ensures Encode(mode, s) == s
  {
    if |s| > 0 {
      EncodeAlnum(mode, s[1..]);
      assert Utf8Encode(s) == [s[0] as int] + Utf8Encode(s[1..]);
      assert Encode(mode, s) == [s[0]] + Encode(mode, s[1..]);
    }
  }
}
