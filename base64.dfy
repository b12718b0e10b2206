/** Base 64 as the upload path uses it: the encoding of section 4 of RFC 4648
    (written by the browser's `FileReader.readAsDataURL`), the
    "forgiving-base64 decode" of the WHATWG Infra standard (run by `atob` in
    the relay), and the RFC 2397 `data:` URL that carries the encoded bytes. */
module Base64 {
  import opened Options
  import Seqs

  type Byte = x: int | 0 <= x < 256

  /** The 64-character alphabet of Table 1 of RFC 4648. */
  function Digit(v: int): (c: char)
    requires 0 <= v < 64
  {
    if v < 26 then ('A' as int + v) as char
    else if v < 52 then ('a' as int + (v - 26)) as char
    else if v < 62 then ('0' as int + (v - 52)) as char
    else if v == 62 then '+'
    else '/'
  }

  predicate IsDigit(c: char)
  {
    ('A' <= c <= 'Z') || ('a' <= c <= 'z') || ('0' <= c <= '9') || c == '+' || c == '/'
  }

  /** The value of an alphabet character. */
  function ValueOf(c: char): (v: int)
    requires IsDigit(c)
    ensures 0 <= v < 64
  {
    if 'A' <= c <= 'Z' then c as int - 'A' as int
    else if 'a' <= c <= 'z' then c as int - 'a' as int + 26
    else if '0' <= c <= '9' then c as int - '0' as int + 52
    else if c == '+' then 62
    else 63
  }

  lemma DigitIsDigit(v: int)
    requires 0 <= v < 64
    ensures IsDigit(Digit(v)) && ValueOf(Digit(v)) == v
  {
  }

  /** Three bytes as four characters. */
  function EncodeGroup(b0: Byte, b1: Byte, b2: Byte): (r: string)
    ensures |r| == 4 && AllDigits(r)
  {
    DigitIsDigit(b0 / 4);
    DigitIsDigit((b0 % 4) * 16 + b1 / 16);
    DigitIsDigit((b1 % 16) * 4 + b2 / 64);
    DigitIsDigit(b2 % 64);
    [Digit(b0 / 4), Digit((b0 % 4) * 16 + b1 / 16), Digit((b1 % 16) * 4 + b2 / 64), Digit(b2 % 64)]
  }

  /** A final one or two bytes as two or three characters. */
  function EncodeTail(b: seq<Byte>): (r: string)
    requires 1 <= |b| <= 2
    ensures |r| == |b| + 1 && AllDigits(r)
  {
    var b1: Byte := if |b| == 2 then b[1] else 0;
    DigitIsDigit(b[0] / 4);
    DigitIsDigit((b[0] % 4) * 16 + b1 / 16);
    DigitIsDigit((b1 % 16) * 4);
    if |b| == 1 then [Digit(b[0] / 4), Digit((b[0] % 4) * 16)]
    else [Digit(b[0] / 4), Digit((b[0] % 4) * 16 + b1 / 16), Digit((b1 % 16) * 4)]
  }

  /** The encoding without `=` padding: four characters per three bytes, and
      two or three characters for a final group of one or two bytes. */
  function EncodeUnpadded(b: seq<Byte>): (r: string)
    ensures AllDigits(r)
    ensures |r| % 4 != 1
    decreases |b|
  {
    if |b| == 0 then ""
    else if |b| <= 2 then EncodeTail(b)
    else
      var g, rest := EncodeGroup(b[0], b[1], b[2]), EncodeUnpadded(b[3..]);
      assert |g + rest| % 4 == |rest| % 4;
      g + rest
  }

  /** The `=` characters that fill the last group of `u` to four characters. */
  function Padding(u: string): (r: string)
    ensures |u| % 4 != 1 ==> (|u| + |r|) % 4 == 0
    ensures forall k :: 0 <= k < |r| ==> r[k] == '='
  {
    if |u| % 4 == 2 then "==" else if |u| % 4 == 3 then "=" else ""
  }

  /** Base 64 encoding, section 4 of RFC 4648. */
  function Encode(b: seq<Byte>): (r: string)
    ensures |r| % 4 == 0
    ensures forall k :: 0 <= k < |r| ==> IsDigit(r[k]) || r[k] == '='
    ensures ',' !in r
  {
    var u := EncodeUnpadded(b);
    var r := u + Padding(u);
    assert forall k :: 0 <= k < |r| ==> IsDigit(r[k]) || r[k] == '=';
    r
  }

  /** Four characters per whole group of three bytes, two or three for the rest. */
  lemma {:induction false} UnpaddedLength(b: seq<Byte>)
    ensures |EncodeUnpadded(b)| == (4 * |b| + 2) / 3
    decreases |b|
  {
    if |b| > 2 {
      UnpaddedLength(b[3..]);
    }
  }

  /** The padded encoding is four characters for every started group of three bytes. */
  lemma EncodeLength(b: seq<Byte>)
    ensures |Encode(b)| == 4 * ((|b| + 2) / 3)
  {
    UnpaddedLength(b);
    GroupCount(|b|);
  }

  /** `(4n + 2) / 3` characters, rounded up to a multiple of four. */
  lemma GroupCount(n: nat)
    ensures var u := (4 * n + 2) / 3;
            u + (if u % 4 == 2 then 2 else if u % 4 == 3 then 1 else 0) == 4 * ((n + 2) / 3)
  {
    var q, r := n / 3, n % 3;
    assert n == 3 * q + r;
    assert (4 * n + 2) / 3 == 4 * q + (4 * r + 2) / 3;
    assert (n + 2) / 3 == q + (r + 2) / 3;
  }

  /** The ASCII whitespace of the Infra standard: TAB, LF, FF, CR and SPACE. */
  predicate IsAsciiWhitespace(c: char)
  {
    c == '\t' || c == '\n' || c == '\U{000C}' || c == '\r' || c == ' '
  }

  predicate NotAsciiWhitespace(c: char) { !IsAsciiWhitespace(c) }

  /** Removes one or two trailing `=`. */
  function StripPadding(s: string): (r: string)
    ensures r <= s && |s| - 2 <= |r|
  {
    if |s| >= 2 && s[|s| - 2] == '=' && s[|s| - 1] == '=' then s[..|s| - 2]
    else if |s| >= 1 && s[|s| - 1] == '=' then s[..|s| - 1]
    else s
  }

  predicate AllDigits(s: string)
  {
    forall k :: 0 <= k < |s| ==> IsDigit(s[k])
  }

  /** Six bits per character; the bits left over at the end are discarded. */
  function DecodeUnpadded(s: string): (r: seq<Byte>)
    requires AllDigits(s) && |s| % 4 != 1
    decreases |s|
  {
    if |s| == 0 then []
    else if |s| == 2 then
      [ValueOf(s[0]) * 4 + ValueOf(s[1]) / 16]
    else if |s| == 3 then
      [ValueOf(s[0]) * 4 + ValueOf(s[1]) / 16, (ValueOf(s[1]) % 16) * 16 + ValueOf(s[2]) / 4]
    else DecodeQuad(s[0], s[1], s[2], s[3]) + DecodeUnpadded(s[4..])
  }

  /** Four characters as three bytes. */
  function DecodeQuad(c0: char, c1: char, c2: char, c3: char): (r: seq<Byte>)
    requires IsDigit(c0) && IsDigit(c1) && IsDigit(c2) && IsDigit(c3)
    ensures |r| == 3
  {
    [ValueOf(c0) * 4 + ValueOf(c1) / 16,
     (ValueOf(c1) % 16) * 16 + ValueOf(c2) / 4,
     (ValueOf(c2) % 4) * 64 + ValueOf(c3)]
  }

  /** The text that forgiving decode works on once whitespace and, when the
      length is a multiple of four, the padding are removed. */
  function DecodeInput(s: string): string
  {
    var d := Seqs.Filter(NotAsciiWhitespace, s);
    if |d| % 4 == 0 then StripPadding(d) else d
  }

  /** Forgiving-base64 decode (WHATWG Infra standard, section 4.6). */
  function ForgivingDecode(s: string): (r: Option<seq<Byte>>)
    ensures r.Some? <==> |DecodeInput(s)| % 4 != 1 && AllDigits(DecodeInput(s))
  {
    var d := DecodeInput(s);
    if |d| % 4 == 1 || !AllDigits(d) then None else Some(DecodeUnpadded(d))
  }

  /** The bit arithmetic of one group: three bytes split into four six-bit
      values and joined again. */
  lemma GroupBits(b0: Byte, b1: Byte, b2: Byte)
    ensures var c1 := (b0 % 4) * 16 + b1 / 16;
            var c2 := (b1 % 16) * 4 + b2 / 64;
            && (b0 / 4) * 4 + c1 / 16 == b0
            && (c1 % 16) * 16 + c2 / 4 == b1
            && (c2 % 4) * 64 + b2 % 64 == b2
  {
  }

  /** One byte is two characters; two bytes are three. */
  lemma TailBits(b0: Byte, b1: Byte)
    ensures (b0 / 4) * 4 + ((b0 % 4) * 16) / 16 == b0
    ensures var c1 := (b0 % 4) * 16 + b1 / 16;
            && (b0 / 4) * 4 + c1 / 16 == b0
            && (c1 % 16) * 16 + ((b1 % 16) * 4) / 4 == b1
  {
  }

  lemma DecodeGroup(b0: Byte, b1: Byte, b2: Byte)
    ensures DecodeUnpadded(EncodeGroup(b0, b1, b2)) == [b0, b1, b2]
  {
    var e := EncodeGroup(b0, b1, b2);
    GroupBits(b0, b1, b2);
    DigitIsDigit(b0 / 4);
    DigitIsDigit((b0 % 4) * 16 + b1 / 16);
    DigitIsDigit((b1 % 16) * 4 + b2 / 64);
    DigitIsDigit(b2 % 64);
    assert e[4..] == [];
  }

  lemma DecodeTail(b: seq<Byte>)
    requires 1 <= |b| <= 2
    ensures DecodeUnpadded(EncodeTail(b)) == b
  {
    var b1: Byte := if |b| == 2 then b[1] else 0;
    TailBits(b[0], b1);
    DigitIsDigit(b[0] / 4);
    DigitIsDigit((b[0] % 4) * 16);
    DigitIsDigit((b[0] % 4) * 16 + b1 / 16);
    DigitIsDigit((b1 % 16) * 4);
  }

  /** Decoding works group by group. */
  lemma DecodeAppend(q: string, rest: string)
    requires |q| == 4 && AllDigits(q) && AllDigits(rest) && |rest| % 4 != 1
    ensures AllDigits(q + rest)
    ensures DecodeUnpadded(q + rest) == DecodeUnpadded(q) + DecodeUnpadded(rest)
  {
    var s := q + rest;
    assert s[4..] == rest;
    assert s[0] == q[0] && s[1] == q[1] && s[2] == q[2] && s[3] == q[3];
    assert q[4..] == [];
    assert DecodeUnpadded(q) == DecodeQuad(q[0], q[1], q[2], q[3]);
  }

  /** Decoding the unpadded encoding gives back the bytes. */
  lemma {:induction false} DecodeEncodeUnpadded(b: seq<Byte>)
    ensures DecodeUnpadded(EncodeUnpadded(b)) == b
    decreases |b|
  {
    if |b| == 0 {
    } else if |b| <= 2 {
      DecodeTail(b);
    } else {
      var g := EncodeGroup(b[0], b[1], b[2]);
      var rest := EncodeUnpadded(b[3..]);
      assert EncodeUnpadded(b) == g + rest;
      assert DecodeUnpadded(rest) == b[3..] by {
        DecodeEncodeUnpadded(b[3..]);
      }
      assert DecodeUnpadded(g) == [b[0], b[1], b[2]] by {
        DecodeGroup(b[0], b[1], b[2]);
      }
      assert DecodeUnpadded(g + rest) == DecodeUnpadded(g) + DecodeUnpadded(rest) by {
        DecodeAppend(g, rest);
      }
      assert b == [b[0], b[1], b[2]] + b[3..];
    }
  }

  /** Stripping removes exactly the padding of an encoding. */
  lemma StripPaddingOf(u: string)
    requires AllDigits(u)
    ensures StripPadding(u + Padding(u)) == u
  {
    var e := u + Padding(u);
    if |u| % 4 == 2 {
      assert e[..|e| - 2] == u;
    } else if |u| % 4 == 3 {
      assert e[..|e| - 1] == u;
    } else {
      assert e == u;
      if |u| > 0 {
        assert IsDigit(u[|u| - 1]);
      }
    }
  }

  /** `atob` undoes the encoding `readAsDataURL` writes. */
  lemma DecodeEncode(b: seq<Byte>)
    ensures ForgivingDecode(Encode(b)) == Some(b)
  {
    var u := EncodeUnpadded(b);
    var e := Encode(b);
    assert e == u + Padding(u);
    Seqs.FilterAll(NotAsciiWhitespace, e);
    StripPaddingOf(u);
    assert DecodeInput(e) == u;
    DecodeEncodeUnpadded(b);
  }

  /** An RFC 2397 `data:` URL with base64 content, as `readAsDataURL` writes it. */
  function DataUrl(mime: string, b: seq<Byte>): string
  {
    "data:" + mime + ";base64," + Encode(b)
  }
}
