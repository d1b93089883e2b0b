/**
 * UTF-8 as RFC 3629 defines it: the encoding Rust strings use for their bytes
 * (`str::bytes`, `str::len`), and the lossy decoding of `String::from_utf8_lossy`,
 * which replaces each maximal ill-formed subsequence with U+FFFD.
 */
module Utf8 {
  import opened Text

  const REPLACEMENT: char := '\U{FFFD}'

  /** Encoding of one Unicode scalar value (section 3 of RFC 3629). */
  function EncodeChar(c: char): (bs: seq<byte>)
    ensures 1 <= |bs| <= 4
    ensures (|bs| == 1) == (c as int < 0x80)
  {
    var cp := c as int;
    if cp < 0x80 then [cp as byte]
    else if cp < 0x800 then [(0xC0 + cp / 64) as byte, (0x80 + cp % 64) as byte]
    else if cp < 0x10000 then
      [(0xE0 + cp / 4096) as byte, (0x80 + (cp / 64) % 64) as byte, (0x80 + cp % 64) as byte]
    else
      [(0xF0 + cp / 262144) as byte, (0x80 + (cp / 4096) % 64) as byte,
       (0x80 + (cp / 64) % 64) as byte, (0x80 + cp % 64) as byte]
  }

  /** The bytes of a string, as `str::bytes` yields them. */
  function EncodeString(s: string): seq<byte>
  {
    if s == [] then [] else EncodeChar(s[0]) + EncodeString(s[1..])
  }

  lemma {:induction false} EncodeStringAppend(a: string, b: string)
    ensures EncodeString(a + b) == EncodeString(a) + EncodeString(b)
  {
    if a != [] {
      assert (a + b)[1..] == a[1..] + b;
      EncodeStringAppend(a[1..], b);
    } else {
      assert a + b == b;
    }
  }

  /** A string never has more characters than bytes. */
  lemma {:induction false} EncodeStringLength(s: string)
    ensures |s| <= |EncodeString(s)|
  {
    if s != [] {
      EncodeStringLength(s[1..]);
    }
  }

  /** A string whose characters are all ASCII has exactly one byte per character,
      and that byte is the character's code. */
  lemma {:induction false} EncodeAscii(s: string)
    requires forall i :: 0 <= i < |s| ==> s[i] as int < 0x80
    ensures |EncodeString(s)| == |s|
    ensures forall i :: 0 <= i < |s| ==> EncodeString(s)[i] as int == s[i] as int
  {
    if s != [] {
      EncodeAscii(s[1..]);
    }
  }

  /** A string is one byte long exactly when it is one ASCII character. */
  lemma SingleByte(s: string)
    ensures |EncodeString(s)| == 1 <==> |s| == 1 && s[0] as int < 0x80
  {
    if |s| >= 2 {
      EncodeStringLength(s);
    } else if |s| == 1 {
      assert EncodeString(s) == EncodeChar(s[0]);
    }
  }

  // ------------------------------------------------------------------
  // Decoding (well-formed byte sequences: table 3-7 of the Unicode Standard)
  // ------------------------------------------------------------------

  /** Length of the sequence a lead byte announces, 0 when it cannot start one. */
  function SeqLen(b: byte): nat
  {
    if b < 0x80 then 1
    else if 0xC2 <= b <= 0xDF then 2
    else if 0xE0 <= b <= 0xEF then 3
    else if 0xF0 <= b <= 0xF4 then 4
    else 0
  }

  predicate IsCont(b: byte)
  {
    0x80 <= b <= 0xBF
  }

  /** The second byte's admissible range depends on the lead byte, which excludes
      overlong forms, surrogates and values above U+10FFFF. */
  predicate SecondOk(lead: byte, b: byte)
  {
    if lead == 0xE0 then 0xA0 <= b <= 0xBF
    else if lead == 0xED then 0x80 <= b <= 0x9F
    else if lead == 0xF0 then 0x90 <= b <= 0xBF
    else if lead == 0xF4 then 0x80 <= b <= 0x8F
    else IsCont(b)
  }

  /** How many bytes after a lead byte continue a well-formed prefix (at most n - 1). */
  function ValidTail(bs: seq<byte>, n: nat): (k: nat)
    requires |bs| >= 1 && 2 <= n <= 4
    ensures k < n && k < |bs|
  {
    if |bs| < 2 || !SecondOk(bs[0], bs[1]) then 0
    else if n == 2 || |bs| < 3 || !IsCont(bs[2]) then 1
    else if n == 3 || |bs| < 4 || !IsCont(bs[3]) then 2
    else 3
  }

  /** The scalar value of a well-formed multi-byte sequence. */
  function ScalarOf(bs: seq<byte>): (c: char)
    requires 2 <= |bs| <= 4 && SeqLen(bs[0]) == |bs| && ValidTail(bs, |bs|) == |bs| - 1
  {
    var b0, b1 := bs[0] as int, bs[1] as int;
    if |bs| == 2 then
      ((b0 - 0xC0) * 64 + (b1 - 0x80)) as char
    else if |bs| == 3 then
      var v := (b0 - 0xE0) * 4096 + (b1 - 0x80) * 64 + (bs[2] as int - 0x80);
      assert b0 == 0xED ==> v < 0xD800;
      v as char
    else
      ((b0 - 0xF0) * 262144 + (b1 - 0x80) * 4096 + (bs[2] as int - 0x80) * 64 + (bs[3] as int - 0x80)) as char
  }

  /** `String::from_utf8_lossy`: well-formed sequences decode to their scalar; each
      maximal ill-formed subsequence becomes one U+FFFD. */
  function DecodeLossy(bs: seq<byte>): string
    decreases |bs|
  {
    if bs == [] then []
    else
      var n := SeqLen(bs[0]);
      if n == 0 then [REPLACEMENT] + DecodeLossy(bs[1..])
      else if n == 1 then [bs[0] as int as char] + DecodeLossy(bs[1..])
      else
        var k := ValidTail(bs, n);
        if k == n - 1 then [ScalarOf(bs[..n])] + DecodeLossy(bs[n..])
        else [REPLACEMENT] + DecodeLossy(bs[1 + k..])
  }

  lemma Digits2(cp: int)
    requires 0x80 <= cp < 0x800
    ensures cp == (cp / 64) * 64 + cp % 64 && 2 <= cp / 64 < 32
  {
  }

  lemma Digits3(cp: int)
    requires 0x800 <= cp < 0x10000
    ensures cp == (cp / 4096) * 4096 + ((cp / 64) % 64) * 64 + cp % 64
    ensures cp / 4096 < 16
    ensures cp / 4096 == 0 ==> (cp / 64) % 64 >= 0x20
    ensures cp / 4096 == 13 && cp < 0xD800 ==> (cp / 64) % 64 < 0x20
  {
  }

  lemma Digits4(cp: int)
    requires 0x10000 <= cp < 0x110000
    ensures cp == (cp / 262144) * 262144 + ((cp / 4096) % 64) * 4096 + ((cp / 64) % 64) * 64 + cp % 64
    ensures 0 <= cp / 262144 <= 4
    ensures cp / 262144 == 0 ==> (cp / 4096) % 64 >= 0x10
    ensures cp / 262144 == 4 ==> (cp / 4096) % 64 < 0x10
  {
  }

  /** Decoding the encoding of one character, followed by anything, yields that
      character first and then the decoding of what follows. */
  lemma DecodeEncodedChar(c: char, rest: seq<byte>)
    ensures DecodeLossy(EncodeChar(c) + rest) == [c] + DecodeLossy(rest)
  {
    var e := EncodeChar(c);
    var bs := e + rest;
    var cp := c as int;
    assert bs[..|e|] == e && bs[|e|..] == rest && bs[1..] == e[1..] + rest;
    if cp >= 0x80 {
      if cp < 0x800 {
        Digits2(cp);
      } else if cp < 0x10000 {
        Digits3(cp);
      } else {
        Digits4(cp);
      }
      assert SeqLen(e[0]) == |e|;
      assert ValidTail(bs, |e|) == |e| - 1;
      assert ScalarOf(e) == c;
    }
  }

  /** Lossy decoding is exact on well-formed input: it inverts the encoding. */
  lemma {:induction false} DecodeEncode(s: string)
    ensures DecodeLossy(EncodeString(s)) == s
  {
    if s != [] {
      DecodeEncodedChar(s[0], EncodeString(s[1..]));
      DecodeEncode(s[1..]);
    }
  }
}
