/** `encodeURIComponent` and `decodeURIComponent`: unreserved characters stay, every other one
    becomes its UTF-8 bytes, percent-encoded (section 2.1 of RFC 3986; ECMA-262, section 19.2.6). */
module Percent {
  import opened Sequences

  type Byte = b: nat | b < 256

  /** The characters `encodeURIComponent` leaves alone. */
  predicate Unreserved(c: char) {
    || 'A' <= c <= 'Z' || 'a' <= c <= 'z' || '0' <= c <= '9'
    || c == '-' || c == '_' || c == '.' || c == '!' || c == '~' || c == '*' || c == '\'' || c == '(' || c == ')'
  }

  function Utf8(v: nat): seq<Byte>
    requires v < 0x110000
  {
    if v < 0x80 then [v]
    else if v < 0x800 then [0xC0 + v / 64, 0x80 + v % 64]
    else if v < 0x10000 then [0xE0 + v / 64 / 64, 0x80 + v / 64 % 64, 0x80 + v % 64]
    else [0xF0 + v / 64 / 64 / 64, 0x80 + v / 64 / 64 % 64, 0x80 + v / 64 % 64, 0x80 + v % 64]
  }

  function HexDigit(d: nat): char
    requires d < 16
  {
    if d < 10 then '0' + d as char else 'A' + (d - 10) as char
  }

  function HexValue(c: char): Option<nat> {
    if '0' <= c <= '9' then Some(c as int - '0' as int)
    else if 'A' <= c <= 'F' then Some(c as int - 'A' as int + 10)
    else if 'a' <= c <= 'f' then Some(c as int - 'a' as int + 10)
    else None
  }

  function PercentByte(b: Byte): string {
    ['%', HexDigit(b / 16), HexDigit(b % 16)]
  }

  function PercentBytes(bytes: seq<Byte>): string {
    if bytes == [] then "" else PercentByte(bytes[0]) + PercentBytes(bytes[1..])
  }

  function EncodeChar(c: char): string {
    if Unreserved(c) then [c] else PercentBytes(Utf8(c as int))
  }

  function EncodeURIComponent(s: string): string {
    if s == "" then "" else EncodeChar(s[0]) + EncodeURIComponent(s[1..])
  }

  // ----------------------------------------------------------------------------------------
  // Decoding
  // ----------------------------------------------------------------------------------------

  /** How many bytes a UTF-8 sequence with this first byte has; zero if none starts like this. */
  function SequenceLength(first: Byte): nat {
    if first < 0x80 then 1
    else if 0xC0 <= first < 0xE0 then 2
    else if 0xE0 <= first < 0xF0 then 3
    else if 0xF0 <= first < 0xF8 then 4
    else 0
  }

  function ReadByte(s: string): Option<Byte> {
    if |s| < 3 || s[0] != '%' then None
    else
      match (HexValue(s[1]), HexValue(s[2]))
      case (Some(high), Some(low)) => if high < 16 && low < 16 then Some(16 * high + low) else None
      case _ => None
  }

  function ReadBytes(s: string, count: nat): (bytes: Option<seq<Byte>>)
    ensures bytes.Some? ==> |bytes.value| == count
  {
    if count == 0 then Some([])
    else
      match ReadByte(s)
      case None => None
      case Some(b) =>
        match ReadBytes(s[3..], count - 1)
        case None => None
        case Some(rest) => Some([b] + rest)
  }

  /** The code point the payload bits of a sequence spell. */
  function PointOf(bytes: seq<Byte>): int
    requires 1 <= |bytes| <= 4
  {
    match |bytes|
    case 1 => bytes[0]
    case 2 => AddBits(bytes[0] as int - 0xC0, bytes[1])
    case 3 => AddBits(AddBits(bytes[0] as int - 0xE0, bytes[1]), bytes[2])
    case _ => AddBits(AddBits(AddBits(bytes[0] as int - 0xF0, bytes[1]), bytes[2]), bytes[3])
  }

  /** Six more bits from a continuation byte. */
  function AddBits(v: int, next: Byte): int {
    64 * v + next - 0x80
  }

  predicate IsScalar(v: int) {
    0 <= v < 0xD800 || 0xE000 <= v < 0x110000
  }

  /** The character the bytes encode; overlong and out-of-range sequences encode none. */
  function CharOf(bytes: seq<Byte>): Option<char>
    requires 1 <= |bytes| <= 4
  {
    var v := PointOf(bytes);
    if IsScalar(v) && Utf8(v) == bytes then Some(v as char) else None
  }

  /** `None` stands for the URIError that malformed input throws. */
  function DecodeURIComponent(s: string): Option<string>
    decreases |s|
  {
    if s == "" then Some("")
    else if s[0] != '%' then Prepend(s[0], DecodeURIComponent(s[1..]))
    else
      match ReadByte(s)
      case None => None
      case Some(first) =>
        var n := SequenceLength(first);
        if n == 0 || |s| < 3 * n then None
        else
          match ReadBytes(s, n)
          case None => None
          case Some(bytes) =>
            match CharOf(bytes)
            case None => None
            case Some(c) => Prepend(c, DecodeURIComponent(s[3 * n..]))
  }

  function Prepend(c: char, rest: Option<string>): Option<string> {
    match rest
    case None => None
    case Some(text) => Some([c] + text)
  }

  // ----------------------------------------------------------------------------------------
  // Decoding undoes encoding
  // ----------------------------------------------------------------------------------------

  lemma ReadPercentByte(b: Byte, rest: string)
    ensures ReadByte(PercentByte(b) + rest) == Some(b)
    ensures (PercentByte(b) + rest)[3..] == rest
  {
    var s := PercentByte(b) + rest;
    assert s[0] == '%' && s[1] == HexDigit(b / 16) && s[2] == HexDigit(b % 16);
    assert HexValue(s[1]) == Some(b / 16) && HexValue(s[2]) == Some(b % 16);
  }

  lemma {:induction false} ReadPercentBytes(bytes: seq<Byte>, rest: string)
    ensures |PercentBytes(bytes)| == 3 * |bytes|
    ensures ReadBytes(PercentBytes(bytes) + rest, |bytes|) == Some(bytes)
    ensures (PercentBytes(bytes) + rest)[3 * |bytes|..] == rest
  {
    if bytes != [] {
      var tail := PercentBytes(bytes[1..]);
      assert PercentBytes(bytes) + rest == PercentByte(bytes[0]) + (tail + rest);
      ReadPercentByte(bytes[0], tail + rest);
      ReadPercentBytes(bytes[1..], rest);
      assert bytes == [bytes[0]] + bytes[1..];
    }
  }

  lemma PointOfUtf8(v: nat)
    requires IsScalar(v)
    ensures 1 <= |Utf8(v)| <= 4 && SequenceLength(Utf8(v)[0]) == |Utf8(v)|
    ensures CharOf(Utf8(v)) == Some(v as char)
  {
    var q, r := v / 64, v / 64 / 64;
    if v < 0x80 {
    } else if v < 0x800 {
      assert AddBits(q, 0x80 + v % 64) == v;
    } else if v < 0x10000 {
      assert AddBits(r, 0x80 + q % 64) == q && AddBits(q, 0x80 + v % 64) == v;
    } else {
      assert AddBits(r / 64, 0x80 + r % 64) == r && AddBits(r, 0x80 + q % 64) == q && AddBits(q, 0x80 + v % 64) == v;
    }
  }

  /** The percent-encoded bytes of one character, in front of anything, decode to it. */
  lemma DecodeSequence(bytes: seq<Byte>, c: char, s: string, rest: string)
    requires 1 <= |bytes| <= 4 && SequenceLength(bytes[0]) == |bytes| && CharOf(bytes) == Some(c)
    requires s == PercentBytes(bytes) + rest
    ensures DecodeURIComponent(s) == Prepend(c, DecodeURIComponent(rest))
  {
    ReadPercentBytes(bytes, rest);
    FirstByte(bytes, rest);
  }

  lemma FirstByte(bytes: seq<Byte>, rest: string)
    requires bytes != []
    ensures var s := PercentBytes(bytes) + rest; s != "" && s[0] == '%' && ReadByte(s) == Some(bytes[0])
  {
    var tail := PercentBytes(bytes[1..]);
    assert PercentBytes(bytes) + rest == PercentByte(bytes[0]) + (tail + rest);
    ReadPercentByte(bytes[0], tail + rest);
  }

  lemma DecodeEncodedChar(c: char, rest: string)
    ensures DecodeURIComponent(EncodeChar(c) + rest) == Prepend(c, DecodeURIComponent(rest))
  {
    if Unreserved(c) {
      var s := EncodeChar(c) + rest;
      assert s[0] == c && s[1..] == rest;
    } else {
      PointOfUtf8(c as int);
      DecodeSequence(Utf8(c as int), c, EncodeChar(c) + rest, rest);
    }
  }

  /** Every string comes back from its encoding. */
  lemma {:induction false} DecodeEncode(s: string)
    ensures DecodeURIComponent(EncodeURIComponent(s)) == Some(s)
  {
    if s != "" {
      DecodeEncodedChar(s[0], EncodeURIComponent(s[1..]));
      DecodeEncode(s[1..]);
      assert s == [s[0]] + s[1..];
    }
  }

  predicate EncodedChar(c: char) {
    Unreserved(c) || c == '%'
  }

  lemma EncodeCharPlain(c: char)
    ensures forall i :: 0 <= i < |EncodeChar(c)| ==> EncodedChar(EncodeChar(c)[i])
    ensures EncodeChar(c) != ""
  {
    if !Unreserved(c) { PercentBytesPlain(Utf8(c as int)); }
  }

  lemma PercentBytesPlain(bytes: seq<Byte>)
    ensures forall i :: 0 <= i < |PercentBytes(bytes)| ==> EncodedChar(PercentBytes(bytes)[i])
    ensures bytes != [] ==> PercentBytes(bytes) != ""
  {
  }

  /** Encoded text holds unreserved characters and percent signs only: no `/`, `:`, `#` or `?`. */
  lemma {:induction false} EncodedIsPlain(s: string)
    ensures forall i :: 0 <= i < |EncodeURIComponent(s)| ==> EncodedChar(EncodeURIComponent(s)[i])
    ensures EncodeURIComponent(s) == "" <==> s == ""
  {
    if s != "" {
      EncodeCharPlain(s[0]);
      EncodedIsPlain(s[1..]);
    }
  }

  lemma PlainHoldsNo(s: string, c: char)
    requires !EncodedChar(c)
    ensures c !in EncodeURIComponent(s)
  {
    EncodedIsPlain(s);
  }

  /** Encoding leaves alone exactly the texts made of letters, digits and `-_.!~*'()`. */
  lemma {:induction false} PlainTextStays(s: string)
    ensures EncodeURIComponent(s) == s <==> forall i :: 0 <= i < |s| ==>
      || 'A' <= s[i] <= 'Z' || 'a' <= s[i] <= 'z' || '0' <= s[i] <= '9' || s[i] in "-_.!~*'()"
  {
    if forall i :: 0 <= i < |s| ==> Unreserved(s[i]) {
      UnreservedStays(s);
    } else {
      var i :| 0 <= i < |s| && !Unreserved(s[i]);
      EncodingGrows(s, i);
    }
  }

  lemma {:induction false} UnreservedStays(s: string)
    requires forall i :: 0 <= i < |s| ==> Unreserved(s[i])
    ensures EncodeURIComponent(s) == s
  {
    if s != "" {
      UnreservedStays(s[1..]);
      assert s == [s[0]] + s[1..];
    }
  }

  lemma {:induction false} EncodingGrows(s: string, i: nat)
    requires i < |s| && !Unreserved(s[i])
    ensures |EncodeURIComponent(s)| > |s|
  {
    EncodingNeverShrinks(s[1..]);
    EncodeCharPlain(s[0]);
    if i == 0 {
      CharGrows(s[0]);
    } else {
      EncodingGrows(s[1..], i - 1);
    }
  }

  lemma {:induction false} EncodingNeverShrinks(s: string)
    ensures |EncodeURIComponent(s)| >= |s|
  {
    if s != "" {
      EncodingNeverShrinks(s[1..]);
      EncodeCharPlain(s[0]);
    }
  }

  lemma CharGrows(c: char)
    requires !Unreserved(c)
    ensures |EncodeChar(c)| >= 3
  {
    ReadPercentBytes(Utf8(c as int), "");
    assert Utf8(c as int) != [];
  }

  /** What other characters become: their UTF-8 bytes, in upper-case hexadecimal. */
  lemma EncodedSpace()
    ensures EncodeChar(' ') == "%20"
  {
    OneByte(0x20);
    assert Utf8(0x20) == [0x20];
  }

  lemma EncodedLatin()
    ensures EncodeChar('\U{00E9}') == "%C3%A9"
  {
    TwoBytes(0xC3, 0xA9);
    assert Utf8(0xE9) == [0xC3, 0xA9];
  }

  lemma EncodedVietnamese()
    ensures EncodeChar('\U{1EA9}') == "%E1%BA%A9"
  {
    MoreBytes(0xE1, [0xBA, 0xA9]);
    TwoBytes(0xBA, 0xA9);
    assert Utf8(0x1EA9) == [0xE1, 0xBA, 0xA9] == [0xE1] + [0xBA, 0xA9];
  }

  lemma OneByte(a: Byte)
    ensures PercentBytes([a]) == PercentByte(a)
  {
    assert [a][1..] == [];
  }

  lemma TwoBytes(a: Byte, b: Byte)
    ensures PercentBytes([a, b]) == PercentByte(a) + PercentByte(b)
  {
    assert [a, b][1..] == [b];
    OneByte(b);
  }

  lemma MoreBytes(a: Byte, rest: seq<Byte>)
    ensures PercentBytes([a] + rest) == PercentByte(a) + PercentBytes(rest)
  {
    assert ([a] + rest)[1..] == rest;
  }
}
