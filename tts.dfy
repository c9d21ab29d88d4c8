/**
 * Google Translate text-to-speech links (`generate_audio_url`), with
 * `urllib.parse.quote` written out: UTF-8 encoding followed by the
 * percent-encoding of section 2.1 of RFC 3986, keeping the unreserved
 * characters of section 2.3 and `/` as they are.
 */
module GoogleTts {
  import opened Wrappers
  import opened Json

  newtype byte = x: int | 0 <= x < 256

  const TtsPrefix: string := "https://translate.google.com/translate_tts?ie=UTF-8&tl=en&client=tw-ob&q="

  // ----- UTF-8 (RFC 3629) -----

  /** The UTF-8 bytes of one Unicode scalar value. */
  function EncodeChar(c: char): (bs: seq<byte>)
    ensures 1 <= |bs| <= 4
  {
    var cp := c as int;
    if cp < 0x80 then [cp as byte]
    else if cp < 0x800 then [(0xC0 + cp / 64) as byte, (0x80 + cp % 64) as byte]
    else if cp < 0x10000 then
      [(0xE0 + cp / 4096) as byte, (0x80 + (cp / 64) % 64) as byte, (0x80 + cp % 64) as byte]
    else
      [(0xF0 + cp / 262144) as byte, (0x80 + (cp / 4096) % 64) as byte,
       (0x80 + (cp / 64) % 64) as byte, (0x80 + cp % 64) as byte]
  }

  function EncodeUtf8(s: string): seq<byte> {
    if s == [] then [] else EncodeChar(s[0]) + EncodeUtf8(s[1..])
  }

  predicate IsScalar(cp: int) {
    0 <= cp < 0xD800 || 0xE000 <= cp < 0x110000
  }

  predicate IsContinuation(b: byte) {
    0x80 <= b < 0xC0
  }

  /** Length of the encoding that starts with lead byte `b`, or 0 if `b` cannot lead. */
  function SequenceLength(b: byte): nat {
    if b < 0x80 then 1
    else if 0xC0 <= b < 0xE0 then 2
    else if 0xE0 <= b < 0xF0 then 3
    else if 0xF0 <= b < 0xF8 then 4
    else 0
  }

  /** Decodes the code point of one well-formed sequence (shortest form only). */
  function DecodeOne(bs: seq<byte>): Option<char>
    requires 1 <= |bs| <= 4 && SequenceLength(bs[0]) == |bs|
  {
    if exists k :: 1 <= k < |bs| && !IsContinuation(bs[k]) then None
    else
      var cp :=
        if |bs| == 1 then bs[0] as int
        else if |bs| == 2 then (bs[0] as int - 0xC0) * 64 + (bs[1] as int - 0x80)
        else if |bs| == 3 then
          (bs[0] as int - 0xE0) * 4096 + (bs[1] as int - 0x80) * 64 + (bs[2] as int - 0x80)
        else
          (bs[0] as int - 0xF0) * 262144 + (bs[1] as int - 0x80) * 4096
          + (bs[2] as int - 0x80) * 64 + (bs[3] as int - 0x80);
      var least := if |bs| == 1 then 0 else if |bs| == 2 then 0x80 else if |bs| == 3 then 0x800 else 0x10000;
      if IsScalar(cp) && least <= cp then Some(cp as char) else None
  }

  function DecodeUtf8(bs: seq<byte>): Option<string>
    decreases |bs|
  {
    if bs == [] then Some([])
    else
      var n := SequenceLength(bs[0]);
      if n == 0 || |bs| < n then None
      else match DecodeOne(bs[..n])
        case None => None
        case Some(c) =>
          match DecodeUtf8(bs[n..])
          case None => None
          case Some(rest) => Some([c] + rest)
  }

  lemma EncodeCharDecodes(c: char)
    ensures var bs := EncodeChar(c);
      SequenceLength(bs[0]) == |bs| && DecodeOne(bs) == Some(c)
  {
    var cp := c as int;
    assert IsScalar(cp);
    if cp < 0x80 {
    } else if cp < 0x800 {
      TwoByteDecodes(c);
    } else if cp < 0x10000 {
      ThreeByteDecodes(c);
    } else {
      FourByteDecodes(c);
    }
  }

  lemma TwoByteDecodes(c: char)
    requires 0x80 <= c as int < 0x800
    ensures var bs := EncodeChar(c);
      SequenceLength(bs[0]) == |bs| == 2 && DecodeOne(bs) == Some(c)
  {
    var cp := c as int;
    var q, r := cp / 64, cp % 64;
    assert cp == q * 64 + r && 2 <= q < 32 && 0 <= r < 64;
    var bs := EncodeChar(c);
    assert bs == [(0xC0 + q) as byte, (0x80 + r) as byte];
    assert (bs[0] as int - 0xC0) * 64 + (bs[1] as int - 0x80) == cp;
  }

  lemma ThreeByteDecodes(c: char)
    requires 0x800 <= c as int < 0x10000
    ensures var bs := EncodeChar(c);
      SequenceLength(bs[0]) == |bs| == 3 && DecodeOne(bs) == Some(c)
  {
    var cp := c as int;
    var q, r := cp / 64, cp % 64;
    var q2, r2 := q / 64, q % 64;
    assert cp == q * 64 + r && 0 <= r < 64;
    assert q == q2 * 64 + r2 && 0 <= r2 < 64;
    assert cp / 4096 == q2;
    assert 0 <= q2 < 16;
    var bs := EncodeChar(c);
    assert bs == [(0xE0 + q2) as byte, (0x80 + r2) as byte, (0x80 + r) as byte];
    assert (bs[0] as int - 0xE0) * 4096 + (bs[1] as int - 0x80) * 64 + (bs[2] as int - 0x80) == cp;
  }

  lemma FourByteDecodes(c: char)
    requires 0x10000 <= c as int
    ensures var bs := EncodeChar(c);
      SequenceLength(bs[0]) == |bs| == 4 && DecodeOne(bs) == Some(c)
  {
    var cp := c as int;
    assert cp < 0x110000;
    var q, r := cp / 64, cp % 64;
    var q2, r2 := q / 64, q % 64;
    var q3, r3 := q2 / 64, q2 % 64;
    assert cp == q * 64 + r && 0 <= r < 64;
    assert q == q2 * 64 + r2 && 0 <= r2 < 64;
    assert q2 == q3 * 64 + r3 && 0 <= r3 < 64;
    assert cp / 4096 == q2;
    assert cp / 262144 == q3;
    assert 0 <= q3 < 5;
    var bs := EncodeChar(c);
    assert bs == [(0xF0 + q3) as byte, (0x80 + r3) as byte, (0x80 + r2) as byte, (0x80 + r) as byte];
    assert (bs[0] as int - 0xF0) * 262144 + (bs[1] as int - 0x80) * 4096
      + (bs[2] as int - 0x80) * 64 + (bs[3] as int - 0x80) == cp;
  }

  /** Decoding undoes encoding: UTF-8 is a faithful representation of text. */
  lemma {:induction false} Utf8RoundTrip(s: string)
    ensures DecodeUtf8(EncodeUtf8(s)) == Some(s)
  {
    if s != [] {
      var head := EncodeChar(s[0]);
      EncodeCharDecodes(s[0]);
      Utf8RoundTrip(s[1..]);
      var bs := EncodeUtf8(s);
      assert bs == head + EncodeUtf8(s[1..]);
      assert bs[0] == head[0];
      assert bs[..|head|] == head;
      assert bs[|head|..] == EncodeUtf8(s[1..]);
      assert s == [s[0]] + s[1..];
    }
  }

  // ----- percent-encoding (RFC 3986, sections 2.1 and 2.3) -----

  /** ALPHA / DIGIT / "-" / "." / "_" / "~", plus the `/` that `quote` keeps by default. */
  predicate IsSafe(b: byte) {
    ('A' as byte <= b <= 'Z' as byte) || ('a' as byte <= b <= 'z' as byte)
    || ('0' as byte <= b <= '9' as byte)
    || b == '-' as byte || b == '.' as byte || b == '_' as byte || b == '~' as byte
    || b == '/' as byte
  }

  /** Upper-case hexadecimal digit, as `quote` writes it. */
  function HexDigit(d: nat): (c: char)
    requires d < 16
  {
    if d < 10 then ('0' as int + d) as char else ('A' as int + d - 10) as char
  }

  function HexValue(c: char): Option<nat> {
    if '0' <= c <= '9' then Some(c as int - '0' as int)
    else if 'A' <= c <= 'F' then Some(c as int - 'A' as int + 10)
    else if 'a' <= c <= 'f' then Some(c as int - 'a' as int + 10)
    else None
  }

  lemma HexRoundTrip(d: nat)
    requires d < 16
    ensures HexValue(HexDigit(d)) == Some(d)
  {
  }

  function EncodeByte(b: byte): string {
    if IsSafe(b) then [b as int as char]
    else ['%', HexDigit(b as int / 16), HexDigit(b as int % 16)]
  }

  function PercentEncode(bs: seq<byte>): string {
    if bs == [] then "" else EncodeByte(bs[0]) + PercentEncode(bs[1..])
  }

  /** `unquote_to_bytes`, strict form: every `%` starts a two-digit escape, other characters are ASCII. */
  function PercentDecode(s: string): Option<seq<byte>>
    decreases |s|
  {
    if s == [] then Some([])
    else if s[0] == '%' then
      if |s| < 3 || HexValue(s[1]).None? || HexValue(s[2]).None? then None
      else match PercentDecode(s[3..])
        case None => None
        case Some(rest) => Some([(HexValue(s[1]).value * 16 + HexValue(s[2]).value) as byte] + rest)
    else if s[0] as int < 128 then
      match PercentDecode(s[1..])
      case None => None
      case Some(rest) => Some([s[0] as int as byte] + rest)
    else None
  }

  /** A character `quote` may emit: a kept character, `%`, or an upper-case hex digit. */
  predicate IsQuotedChar(c: char) {
    ('A' <= c <= 'Z') || ('a' <= c <= 'z') || ('0' <= c <= '9')
    || c == '-' || c == '.' || c == '_' || c == '~' || c == '/' || c == '%'
  }

  /** `urllib.parse.quote(text)` with its default `safe='/'`. */
  function Quote(text: string): string {
    PercentEncode(EncodeUtf8(text))
  }

  lemma {:induction false} PercentRoundTrip(bs: seq<byte>)
    ensures PercentDecode(PercentEncode(bs)) == Some(bs)
  {
    if bs != [] {
      PercentRoundTrip(bs[1..]);
      var head := EncodeByte(bs[0]);
      var s := PercentEncode(bs);
      assert s == head + PercentEncode(bs[1..]);
      if IsSafe(bs[0]) {
        assert s[0] == bs[0] as int as char && s[1..] == PercentEncode(bs[1..]);
        assert s[0] != '%' && s[0] as int < 128 && s[0] as int as byte == bs[0];
        assert bs == [bs[0]] + bs[1..];
      } else {
        var b := bs[0] as int;
        assert s[0] == '%' && s[1] == HexDigit(b / 16) && s[2] == HexDigit(b % 16);
        assert s[3..] == PercentEncode(bs[1..]);
        HexRoundTrip(b / 16);
        HexRoundTrip(b % 16);
        assert (b / 16) * 16 + b % 16 == b;
        assert HexValue(s[1]).value * 16 + HexValue(s[2]).value == b;
        assert bs == [bs[0]] + bs[1..];
      }
    }
  }

  lemma {:induction false} PercentEncodeAlphabet(bs: seq<byte>)
    ensures forall k :: 0 <= k < |PercentEncode(bs)| ==> IsQuotedChar(PercentEncode(bs)[k])
  {
    if bs != [] {
      PercentEncodeAlphabet(bs[1..]);
      var head := EncodeByte(bs[0]);
      assert forall k :: 0 <= k < |head| ==> IsQuotedChar(head[k]);
      var s := PercentEncode(bs);
      assert s == head + PercentEncode(bs[1..]);
      forall k | 0 <= k < |s| ensures IsQuotedChar(s[k]) {
        if k >= |head| { assert s[k] == PercentEncode(bs[1..])[k - |head|]; }
      }
    }
  }

  /**
   * `quote` loses nothing: unquoting its output and decoding UTF-8 gives
   * the text back, and the output uses only URL-safe characters.
   */
  lemma QuoteIsInvertible(text: string)
    ensures PercentDecode(Quote(text)).Some?
    ensures DecodeUtf8(PercentDecode(Quote(text)).value) == Some(text)
    ensures forall k :: 0 <= k < |Quote(text)| ==> IsQuotedChar(Quote(text)[k])
  {
    PercentRoundTrip(EncodeUtf8(text));
    Utf8RoundTrip(text);
    PercentEncodeAlphabet(EncodeUtf8(text));
  }

  /** `generate_audio_url(text)`: `None` stands for a missing text. */
  function GenerateAudioUrl(text: Option<string>): (url: string)
    ensures url == "" <==> text.None? || text.value == ""
    ensures url != "" ==> url == TtsPrefix + Quote(text.value)
  {
    if text.None? || text.value == "" then "" else
      assert |TtsPrefix + Quote(text.value)| > 0;
      TtsPrefix + Quote(text.value)
  }

  /**
   * The audio link of a word-card field: `generate_audio_url(v)` inside a
   * `try`; a falsy value yields `""`, a truthy non-string makes `quote`
   * raise `TypeError`, which the caller turns into `""`.
   */
  function AudioUrlOf(v: JsonValue): (url: string)
    ensures url != "" <==> v.JStr? && v.s != ""
    ensures url != "" ==> url == TtsPrefix + Quote(v.s)
  {
    if !Truthy(v) then ""
    else match v
      case JStr(s) => GenerateAudioUrl(Some(s))
      case _ => ""
  }
}
