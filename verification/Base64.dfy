/**
 * Base64 as Go's encoding/base64 implements it (RFC 4648, sections 3.2, 4 and 5):
 * the standard and the URL-safe alphabet, with or without padding. Decoding is
 * lenient in the two ways Go is: CR and LF are skipped and the unused low bits of
 * the last character are not checked.
 */
module Base64 {
  import opened Prelude

  type sextet = x: int | 0 <= x < 64

  datatype Encoding = Encoding(url: bool, padded: bool)

  const RAW_STD := Encoding(false, false)
  const URL := Encoding(true, true)

  function CharOf(enc: Encoding, v: sextet): char {
    if v < 26 then ('A' as int + v) as char
    else if v < 52 then ('a' as int + (v - 26)) as char
    else if v < 62 then ('0' as int + (v - 52)) as char
    else if v == 62 then (if enc.url then '-' else '+')
    else (if enc.url then '_' else '/')
  }

  function ValueOf(enc: Encoding, c: char): Option<sextet> {
    if 'A' <= c <= 'Z' then Some(c as int - 'A' as int)
    else if 'a' <= c <= 'z' then Some(c as int - 'a' as int + 26)
    else if '0' <= c <= '9' then Some(c as int - '0' as int + 52)
    else if c == (if enc.url then '-' else '+') then Some(62)
    else if c == (if enc.url then '_' else '/') then Some(63)
    else None
  }

  function Padding(enc: Encoding, n: nat): string {
    if enc.padded then seq(n, _ => '=') else ""
  }

  function Encode(enc: Encoding, b: seq<byte>): string {
    if |b| == 0 then ""
    else if |b| == 1 then
      [CharOf(enc, b[0] / 4), CharOf(enc, b[0] % 4 * 16)] + Padding(enc, 2)
    else if |b| == 2 then
      [CharOf(enc, b[0] / 4), CharOf(enc, b[0] % 4 * 16 + b[1] / 16), CharOf(enc, b[1] % 16 * 4)] + Padding(enc, 1)
    else
      [CharOf(enc, b[0] / 4), CharOf(enc, b[0] % 4 * 16 + b[1] / 16),
       CharOf(enc, b[1] % 16 * 4 + b[2] / 64), CharOf(enc, b[2] % 64)] + Encode(enc, b[3..])
  }

  function Byte0(v0: sextet, v1: sextet): byte { v0 * 4 + v1 / 16 }

  function Byte1(v1: sextet, v2: sextet): byte { v1 % 16 * 16 + v2 / 4 }

  function Byte2(v2: sextet, v3: sextet): byte { v2 % 4 * 64 + v3 }

  /** Decodes text without line breaks, four characters at a time. */
  function DecodeQuanta(enc: Encoding, s: string): Option<seq<byte>> {
    if |s| == 0 then Some([])
    else if |s| == 1 then None
    else
      var v0, v1 := ValueOf(enc, s[0]), ValueOf(enc, s[1]);
      if v0.None? || v1.None? then None
      else if |s| == 2 then
        if enc.padded then None else Some([Byte0(v0.value, v1.value)])
      else
        var v2 := ValueOf(enc, s[2]);
        if v2.None? then
          if enc.padded && s[2..] == "==" then Some([Byte0(v0.value, v1.value)]) else None
        else if |s| == 3 then
          if enc.padded then None else Some([Byte0(v0.value, v1.value), Byte1(v1.value, v2.value)])
        else
          var v3 := ValueOf(enc, s[3]);
          if v3.None? then
            if enc.padded && s[3..] == "=" then Some([Byte0(v0.value, v1.value), Byte1(v1.value, v2.value)]) else None
          else
            var rest := DecodeQuanta(enc, s[4..]);
            if rest.None? then None
            else Some([Byte0(v0.value, v1.value), Byte1(v1.value, v2.value), Byte2(v2.value, v3.value)] + rest.value)
  }

  function SkipLineBreaks(s: string): string {
    if s == "" then ""
    else if s[0] == '\r' || s[0] == '\n' then SkipLineBreaks(s[1..])
    else [s[0]] + SkipLineBreaks(s[1..])
  }

  function Decode(enc: Encoding, s: string): Option<seq<byte>> {
    DecodeQuanta(enc, SkipLineBreaks(s))
  }

  /** The characters that can occur in encoded text. */
  predicate InAlphabet(enc: Encoding, c: char) {
    ValueOf(enc, c).Some? || (enc.padded && c == '=')
  }

  lemma ValueOfCharOf(enc: Encoding, v: sextet)
    ensures ValueOf(enc, CharOf(enc, v)) == Some(v)
  {
  }

  lemma {:induction false} EncodeAlphabet(enc: Encoding, b: seq<byte>)
    ensures forall c :: c in Encode(enc, b) ==> InAlphabet(enc, c)
  {
    forall v: sextet { ValueOfCharOf(enc, v); }
    if |b| >= 3 {
      EncodeAlphabet(enc, b[3..]);
    }
  }

  lemma SextetsToBytes(b0: byte, b1: byte, b2: byte)
    ensures Byte0(b0 / 4, b0 % 4 * 16 + b1 / 16) == b0
    ensures Byte1(b0 % 4 * 16 + b1 / 16, b1 % 16 * 4 + b2 / 64) == b1
    ensures Byte2(b1 % 16 * 4 + b2 / 64, b2 % 64) == b2
  {
  }

  lemma OneByteRoundTrip(enc: Encoding, b: seq<byte>)
    requires |b| == 1
    ensures DecodeQuanta(enc, Encode(enc, b)) == Some(b)
  {
    var v0, v1 := b[0] / 4, b[0] % 4 * 16;
    ValueOfCharOf(enc, v0);
    ValueOfCharOf(enc, v1);
    assert Byte0(v0, v1) == b[0];
    assert enc.padded ==> Encode(enc, b)[2..] == "==";
    assert [b[0]] == b;
  }

  lemma TwoByteRoundTrip(enc: Encoding, b: seq<byte>)
    requires |b| == 2
    ensures DecodeQuanta(enc, Encode(enc, b)) == Some(b)
  {
    var v0, v1, v2 := b[0] / 4, b[0] % 4 * 16 + b[1] / 16, b[1] % 16 * 4;
    var s := Encode(enc, b);
    assert s == [CharOf(enc, v0), CharOf(enc, v1), CharOf(enc, v2)] + Padding(enc, 1);
    ValueOfCharOf(enc, v0);
    ValueOfCharOf(enc, v1);
    ValueOfCharOf(enc, v2);
    assert Byte0(v0, v1) == b[0] && Byte1(v1, v2) == b[1];
    assert [b[0], b[1]] == b;
    if enc.padded {
      assert s[3..] == "=";
    }
  }

  lemma {:induction false} QuantaRoundTrip(enc: Encoding, b: seq<byte>)
    ensures DecodeQuanta(enc, Encode(enc, b)) == Some(b)
    decreases |b|, 1
  {
    if |b| == 1 {
      OneByteRoundTrip(enc, b);
    } else if |b| == 2 {
      TwoByteRoundTrip(enc, b);
    } else if |b| >= 3 {
      FullQuantumRoundTrip(enc, b);
    }
  }

  lemma {:induction false} FullQuantumRoundTrip(enc: Encoding, b: seq<byte>)
    requires |b| >= 3
    ensures DecodeQuanta(enc, Encode(enc, b)) == Some(b)
    decreases |b|, 0
  {
    var s := Encode(enc, b);
    SextetsToBytes(b[0], b[1], b[2]);
    ValueOfCharOf(enc, b[0] / 4);
    ValueOfCharOf(enc, b[0] % 4 * 16 + b[1] / 16);
    ValueOfCharOf(enc, b[1] % 16 * 4 + b[2] / 64);
    ValueOfCharOf(enc, b[2] % 64);
    QuantaRoundTrip(enc, b[3..]);
    assert s[4..] == Encode(enc, b[3..]);
    assert b == [b[0], b[1], b[2]] + b[3..];
  }

  lemma {:induction false} NoLineBreaksToSkip(s: string)
    requires '\r' !in s && '\n' !in s
    ensures SkipLineBreaks(s) == s
  {
    if s != "" {
      NoLineBreaksToSkip(s[1..]);
    }
  }

  /** Decoding undoes encoding, for both alphabets and both padding modes. */
  lemma RoundTrip(enc: Encoding, b: seq<byte>)
    ensures Decode(enc, Encode(enc, b)) == Some(b)
  {
    EncodeAlphabet(enc, b);
    NoLineBreaksToSkip(Encode(enc, b));
    QuantaRoundTrip(enc, b);
  }

  // ---- what the standard says

  /** The alphabets by code point: A to Z, a to z, 0 to 9, and the two that differ. */
  lemma AlphabetExactly(enc: Encoding, v: sextet)
    ensures CharOf(enc, v) as int ==
      if v < 26 then 65 + v else if v < 52 then 97 + (v - 26) else if v < 62 then 48 + (v - 52)
      else if enc.url then (if v == 62 then 45 else 95) else (if v == 62 then 43 else 47)
  {
  }

  function ByteAt(b: seq<byte>, i: nat): byte { if i < |b| then b[i] else 0 }

  /** The k-th 6 bits of 24. */
  function SixBits(bits: nat, k: nat): sextet {
    if k == 0 then bits / 0x4_0000 % 64
    else if k == 1 then bits / 0x1000 % 64
    else if k == 2 then bits / 0x40 % 64
    else bits % 64
  }

  /** The bytes in groups of 24 bits, filled up with zeros, and the k-th 6 bits of them. */
  function Sextet(b: seq<byte>, k: nat): sextet {
    var g := k / 4 * 3;
    SixBits(ByteAt(b, g) * 0x1_0000 + ByteAt(b, g + 1) * 0x100 + ByteAt(b, g + 2), k % 4)
  }

  /** The characters that n bytes take without padding. */
  function CharsFor(n: nat): nat { (4 * n + 2) / 3 }

  lemma SixBitsOf(bits: nat, s0: sextet, s1: sextet, s2: sextet, s3: sextet)
    requires bits == s0 * 0x4_0000 + s1 * 0x1000 + s2 * 0x40 + s3
    ensures SixBits(bits, 0) == s0 && SixBits(bits, 1) == s1 && SixBits(bits, 2) == s2 && SixBits(bits, 3) == s3
  {
    assert bits / 0x4_0000 == s0 && bits / 0x1000 == s0 * 64 + s1 && bits / 0x40 == s0 * 0x1000 + s1 * 64 + s2;
  }

  lemma FirstQuantum(b: seq<byte>)
    requires |b| > 0
    ensures Sextet(b, 0) == b[0] / 4
    ensures Sextet(b, 1) == b[0] % 4 * 16 + ByteAt(b, 1) / 16
    ensures Sextet(b, 2) == ByteAt(b, 1) % 16 * 4 + ByteAt(b, 2) / 64
    ensures Sextet(b, 3) == ByteAt(b, 2) % 64
  {
    var b0: nat, b1: nat, b2: nat := b[0], ByteAt(b, 1), ByteAt(b, 2);
    SixBitsOf(b0 * 0x1_0000 + b1 * 0x100 + b2, b0 / 4, b0 % 4 * 16 + b1 / 16, b1 % 16 * 4 + b2 / 64, b2 % 64);
  }

  lemma NextQuantum(b: seq<byte>, k: nat)
    requires |b| >= 3
    ensures Sextet(b, k + 4) == Sextet(b[3..], k)
  {
    var g := k / 4 * 3;
    assert (k + 4) / 4 * 3 == g + 3 && (k + 4) % 4 == k % 4;
    assert forall i: nat :: ByteAt(b[3..], i) == ByteAt(b, i + 3);
  }

  function LengthOf(enc: Encoding, n: nat): nat {
    if enc.padded then (CharsFor(n) + 3) / 4 * 4 else CharsFor(n)
  }

  /** The text of n bytes is one character for each 6 bits, and padding. */
  ghost predicate Spelled(enc: Encoding, n: nat, bits: nat -> sextet, s: string) {
    |s| == LengthOf(enc, n) &&
    forall k | 0 <= k < |s| :: s[k] == if k < CharsFor(n) then CharOf(enc, bits(k)) else '='
  }

  function Sextets(b: seq<byte>): nat -> sextet {
    k => Sextet(b, k)
  }

  lemma FirstSextets(b: seq<byte>, bits: nat -> sextet)
    requires |b| > 0 && bits == Sextets(b)
    ensures bits(0) == b[0] / 4 && bits(3) == ByteAt(b, 2) % 64
    ensures bits(1) == b[0] % 4 * 16 + ByteAt(b, 1) / 16 && bits(2) == ByteAt(b, 1) % 16 * 4 + ByteAt(b, 2) / 64
  {
    FirstQuantum(b);
  }

  lemma NextSextets(b: seq<byte>, bits: nat -> sextet, rest: nat -> sextet)
    requires |b| >= 3 && bits == Sextets(b) && rest == Sextets(b[3..])
    ensures forall k: nat :: bits(k + 4) == rest(k)
  {
    forall k: nat ensures bits(k + 4) == rest(k) { NextQuantum(b, k); }
  }

  lemma OneByteSpelled(enc: Encoding, b: seq<byte>, bits: nat -> sextet)
    requires |b| == 1 && bits(0) == b[0] / 4 && bits(1) == b[0] % 4 * 16
    ensures Spelled(enc, 1, bits, Encode(enc, b))
  {
    assert Encode(enc, b) == [CharOf(enc, bits(0)), CharOf(enc, bits(1))] + Padding(enc, 2);
  }

  lemma TwoBytesSpelled(enc: Encoding, b: seq<byte>, bits: nat -> sextet)
    requires |b| == 2 && bits(0) == b[0] / 4 && bits(1) == b[0] % 4 * 16 + b[1] / 16 && bits(2) == b[1] % 16 * 4
    ensures Spelled(enc, 2, bits, Encode(enc, b))
  {
    assert Encode(enc, b) == [CharOf(enc, bits(0)), CharOf(enc, bits(1)), CharOf(enc, bits(2))] + Padding(enc, 1);
  }

  lemma QuantumSpelled(enc: Encoding, n: nat, bits: nat -> sextet, rest: nat -> sextet, s: string, t: string)
    requires Spelled(enc, n, rest, t) && forall k: nat :: bits(k + 4) == rest(k)
    requires s == [CharOf(enc, bits(0)), CharOf(enc, bits(1)), CharOf(enc, bits(2)), CharOf(enc, bits(3))] + t
    ensures Spelled(enc, n + 3, bits, s)
  {
    assert CharsFor(n + 3) == 4 + CharsFor(n);
    forall k | 4 <= k < |s| ensures s[k] == if k < CharsFor(n + 3) then CharOf(enc, bits(k)) else '=' {
      assert s[k] == t[k - 4] && bits(k - 4 + 4) == rest(k - 4);
    }
  }

  lemma QuantumEncoded(enc: Encoding, b: seq<byte>, bits: nat -> sextet)
    requires |b| >= 3 && bits(0) == b[0] / 4 && bits(1) == b[0] % 4 * 16 + b[1] / 16
    requires bits(2) == b[1] % 16 * 4 + b[2] / 64 && bits(3) == b[2] % 64
    ensures Encode(enc, b) ==
      [CharOf(enc, bits(0)), CharOf(enc, bits(1)), CharOf(enc, bits(2)), CharOf(enc, bits(3))] + Encode(enc, b[3..])
  {
  }

  /** Encoded text is one character of the alphabet for each 6 bits, and padding up to a multiple of four. */
  lemma {:induction false} EncodeExactly(enc: Encoding, b: seq<byte>)
    ensures Spelled(enc, |b|, Sextets(b), Encode(enc, b))
  {
    if |b| > 0 {
      var bits := Sextets(b);
      FirstSextets(b, bits);
      if |b| == 1 { OneByteSpelled(enc, b, bits); }
      else if |b| == 2 { TwoBytesSpelled(enc, b, bits); }
      else {
        var rest := Sextets(b[3..]);
        EncodeExactly(enc, b[3..]);
        NextSextets(b, bits, rest);
        QuantumEncoded(enc, b, bits);
        QuantumSpelled(enc, |b[3..]|, bits, rest, Encode(enc, b), Encode(enc, b[3..]));
      }
    }
  }

  // ---- what decodes

  /** In the last character of n bytes only the bits count that complete a byte. */
  function Dropped(n: nat): nat { if n % 3 == 1 then 16 else if n % 3 == 2 then 4 else 1 }

  /** A character of the text is that of the encoding, or is the last and differs in bits that do not count. */
  predicate AlikeAt(enc: Encoding, t: string, e: string, n: nat, k: nat) {
    k < |t| && k < |e| &&
    (t[k] == e[k] ||
     (k + 1 == CharsFor(n) && ValueOf(enc, t[k]).Some? && ValueOf(enc, e[k]).Some? &&
      ValueOf(enc, t[k]).value / Dropped(n) == ValueOf(enc, e[k]).value / Dropped(n)))
  }

  predicate Alike(enc: Encoding, t: string, e: string, n: nat) {
    |t| == |e| && forall k | 0 <= k < |t| :: AlikeAt(enc, t, e, n, k)
  }

  lemma CharOfValueOf(enc: Encoding, c: char, v: sextet)
    ensures ValueOf(enc, c) == Some(v) <==> c == CharOf(enc, v)
  {
    ValueOfCharOf(enc, v);
  }

  /** How a text decodes, by the number of bytes it gives. */
  lemma DecodedShape(enc: Encoding, t: string)
    requires DecodeQuanta(enc, t).Some?
    ensures var b := DecodeQuanta(enc, t).value;
      if |b| == 0 then t == ""
      else
        |t| >= 2 && ValueOf(enc, t[0]).Some? && ValueOf(enc, t[1]).Some? &&
        var v0, v1 := ValueOf(enc, t[0]).value, ValueOf(enc, t[1]).value;
        if |b| == 1 then b[0] == Byte0(v0, v1) && t[2..] == Padding(enc, 2)
        else
          |t| >= 3 && ValueOf(enc, t[2]).Some? &&
          var v2 := ValueOf(enc, t[2]).value;
          b[0] == Byte0(v0, v1) && b[1] == Byte1(v1, v2) &&
          if |b| == 2 then t[3..] == Padding(enc, 1)
          else
            |t| >= 4 && ValueOf(enc, t[3]).Some? && b[2] == Byte2(v2, ValueOf(enc, t[3]).value) &&
            DecodeQuanta(enc, t[4..]) == Some(b[3..])
  {
  }

  lemma OneByteAlike(enc: Encoding, t: string, b: byte)
    ensures DecodeQuanta(enc, t) == Some([b]) <==>
      |t| >= 2 && ValueOf(enc, t[0]) == Some(b / 4) && ValueOf(enc, t[1]).Some? &&
      ValueOf(enc, t[1]).value / 16 == b % 4 && t[2..] == Padding(enc, 2)
  {
    if DecodeQuanta(enc, t) == Some([b]) {
      DecodedShape(enc, t);
    } else if |t| >= 2 && t[2..] == Padding(enc, 2) && enc.padded {
      assert t[2] == t[2..][0];
    }
  }

  lemma TwoBytesOf(v0: sextet, v1: sextet, v2: sextet, b0: byte, b1: byte)
    ensures Byte0(v0, v1) == b0 && Byte1(v1, v2) == b1 <==>
      v0 == b0 / 4 && v1 == b0 % 4 * 16 + b1 / 16 && v2 / 4 == b1 % 16
  {
  }

  lemma ThreeBytesOf(v0: sextet, v1: sextet, v2: sextet, v3: sextet, b0: byte, b1: byte, b2: byte)
    ensures Byte0(v0, v1) == b0 && Byte1(v1, v2) == b1 && Byte2(v2, v3) == b2 <==>
      v0 == b0 / 4 && v1 == b0 % 4 * 16 + b1 / 16 && v2 == b1 % 16 * 4 + b2 / 64 && v3 == b2 % 64
  {
  }

  /** A text that decodes to two bytes, and to three or more, by its values. */
  lemma TwoBytesShape(enc: Encoding, t: string, b0: byte, b1: byte)
    ensures DecodeQuanta(enc, t) == Some([b0, b1]) <==>
      |t| >= 3 && ValueOf(enc, t[0]).Some? && ValueOf(enc, t[1]).Some? && ValueOf(enc, t[2]).Some? &&
      Byte0(ValueOf(enc, t[0]).value, ValueOf(enc, t[1]).value) == b0 &&
      Byte1(ValueOf(enc, t[1]).value, ValueOf(enc, t[2]).value) == b1 && t[3..] == Padding(enc, 1)
  {
    if DecodeQuanta(enc, t) == Some([b0, b1]) { DecodedShape(enc, t); }
    if |t| >= 3 && t[3..] == Padding(enc, 1) && enc.padded { assert t[3] == t[3..][0]; }
  }

  lemma QuantumShape(enc: Encoding, t: string, b: seq<byte>)
    requires |b| >= 3
    ensures DecodeQuanta(enc, t) == Some(b) <==>
      |t| >= 4 && ValueOf(enc, t[0]).Some? && ValueOf(enc, t[1]).Some? && ValueOf(enc, t[2]).Some? &&
      ValueOf(enc, t[3]).Some? && Byte0(ValueOf(enc, t[0]).value, ValueOf(enc, t[1]).value) == b[0] &&
      Byte1(ValueOf(enc, t[1]).value, ValueOf(enc, t[2]).value) == b[1] &&
      Byte2(ValueOf(enc, t[2]).value, ValueOf(enc, t[3]).value) == b[2] && DecodeQuanta(enc, t[4..]) == Some(b[3..])
  {
    if DecodeQuanta(enc, t) == Some(b) { DecodedShape(enc, t); }
    assert b == [b[0], b[1], b[2]] + b[3..];
  }

  /** Alike in the characters of one or two bytes, and in the padding. */
  lemma PaddedAlike(enc: Encoding, t: string, e: string, n: nat)
    requires (n == 1 || n == 2) && |e| >= n + 1 && e[n + 1..] == Padding(enc, 3 - n)
    ensures Alike(enc, t, e, n) <==>
      |t| >= n + 1 && t[n + 1..] == Padding(enc, 3 - n) && t[..n] == e[..n] && AlikeAt(enc, t, e, n, n)
  {
    assert CharsFor(n) == n + 1 && e == e[..n + 1] + e[n + 1..];
    if Alike(enc, t, e, n) {
      forall k | 0 <= k < |t| && k != n ensures t[k] == e[k] { assert AlikeAt(enc, t, e, n, k); }
      assert AlikeAt(enc, t, e, n, n);
    } else if |t| >= n + 1 && t[n + 1..] == Padding(enc, 3 - n) && t[..n] == e[..n] && AlikeAt(enc, t, e, n, n) {
      assert t == t[..n + 1] + t[n + 1..];
      forall k | 0 <= k < |t| ensures AlikeAt(enc, t, e, n, k) { assert k < n ==> t[k] == t[..n][k] == e[..n][k]; }
    }
  }

  lemma OneByteText(enc: Encoding, t: string, b: seq<byte>)
    requires |b| == 1
    ensures Alike(enc, t, Encode(enc, b), 1) <==>
      |t| >= 2 && ValueOf(enc, t[0]) == Some(b[0] / 4) && ValueOf(enc, t[1]).Some? &&
      ValueOf(enc, t[1]).value / 16 == b[0] % 4 && t[2..] == Padding(enc, 2)
  {
    var e := Encode(enc, b);
    assert e[2..] == Padding(enc, 2) && e[..1] == [e[0]];
    PaddedAlike(enc, t, e, 1);
    ValueOfCharOf(enc, b[0] % 4 * 16);
    if |t| >= 2 {
      assert t[..1] == [t[0]];
      CharOfValueOf(enc, t[0], b[0] / 4);
    }
  }

  lemma TwoBytesText(enc: Encoding, t: string, b: seq<byte>)
    requires |b| == 2
    ensures Alike(enc, t, Encode(enc, b), 2) <==>
      |t| >= 3 && ValueOf(enc, t[0]) == Some(b[0] / 4) && ValueOf(enc, t[1]) == Some(b[0] % 4 * 16 + b[1] / 16) &&
      ValueOf(enc, t[2]).Some? && ValueOf(enc, t[2]).value / 4 == b[1] % 16 && t[3..] == Padding(enc, 1)
  {
    var e := Encode(enc, b);
    assert e[3..] == Padding(enc, 1) && e[..2] == [e[0], e[1]];
    PaddedAlike(enc, t, e, 2);
    ValueOfCharOf(enc, b[1] % 16 * 4);
    if |t| >= 3 {
      assert t[..2] == [t[0], t[1]];
      CharOfValueOf(enc, t[0], b[0] / 4);
      CharOfValueOf(enc, t[1], b[0] % 4 * 16 + b[1] / 16);
    }
  }

  lemma FourCharacters(t: string, e: string)
    requires |t| >= 4 && |e| >= 4
    ensures t[..4] == e[..4] <==> t[0] == e[0] && t[1] == e[1] && t[2] == e[2] && t[3] == e[3]
  {
    assert t[..4] == [t[0], t[1], t[2], t[3]] && e[..4] == [e[0], e[1], e[2], e[3]];
  }

  lemma LastBytes(n: nat)
    requires n >= 3
    ensures CharsFor(n) == 4 + CharsFor(n - 3) && Dropped(n) == Dropped(n - 3)
    ensures CharsFor(n - 3) > 0 || Dropped(n) == 1
  {
  }

  lemma QuantumText(enc: Encoding, t: string, b: seq<byte>)
    requires |b| >= 3
    ensures Alike(enc, t, Encode(enc, b), |b|) <==>
      |t| >= 4 && ValueOf(enc, t[0]) == Some(b[0] / 4) && ValueOf(enc, t[1]) == Some(b[0] % 4 * 16 + b[1] / 16) &&
      ValueOf(enc, t[2]) == Some(b[1] % 16 * 4 + b[2] / 64) && ValueOf(enc, t[3]) == Some(b[2] % 64) &&
      Alike(enc, t[4..], Encode(enc, b[3..]), |b[3..]|)
  {
    var e, rest := Encode(enc, b), Encode(enc, b[3..]);
    LastBytes(|b|);
    if |t| >= 4 {
      CharOfValueOf(enc, t[0], b[0] / 4);
      CharOfValueOf(enc, t[1], b[0] % 4 * 16 + b[1] / 16);
      CharOfValueOf(enc, t[2], b[1] % 16 * 4 + b[2] / 64);
      CharOfValueOf(enc, t[3], b[2] % 64);
      FourCharacters(t, e);
      QuantumThenRest(enc, t, e, rest, |b|, |b[3..]|);
    }
  }

  lemma ValuesDiffer(enc: Encoding, c: char, d: char)
    requires ValueOf(enc, c).Some? && ValueOf(enc, c) == ValueOf(enc, d)
    ensures c == d
  {
  }

  /** Alike in the first four characters, which all count, and in the rest. */
  lemma QuantumThenRest(enc: Encoding, t: string, e: string, rest: string, n: nat, m: nat)
    requires |t| >= 4 && |e| == 4 + |rest| && e[4..] == rest
    requires CharsFor(n) == 4 + CharsFor(m) && Dropped(n) == Dropped(m) && (CharsFor(m) > 0 || Dropped(n) == 1)
    ensures Alike(enc, t, e, n) <==> t[..4] == e[..4] && Alike(enc, t[4..], rest, m)
  {
    forall k | 0 <= k < 4 ensures AlikeAt(enc, t, e, n, k) <==> t[k] == e[k] {
      if AlikeAt(enc, t, e, n, k) && t[k] != e[k] { ValuesDiffer(enc, t[k], e[k]); }
    }
    forall k | 4 <= k < |t| ensures AlikeAt(enc, t, e, n, k) <==> AlikeAt(enc, t[4..], rest, m, k - 4) {}
    if t[..4] == e[..4] && Alike(enc, t[4..], rest, m) {
      forall k | 0 <= k < |t| ensures AlikeAt(enc, t, e, n, k) {
        if k < 4 { assert t[..4][k] == e[..4][k]; } else { assert AlikeAt(enc, t[4..], rest, m, k - 4); }
      }
    }
    if Alike(enc, t, e, n) {
      forall k | 0 <= k < |t| - 4 ensures AlikeAt(enc, t[4..], rest, m, k) { assert AlikeAt(enc, t, e, n, k + 4); }
      assert AlikeAt(enc, t, e, n, 0) && AlikeAt(enc, t, e, n, 1);
      assert AlikeAt(enc, t, e, n, 2) && AlikeAt(enc, t, e, n, 3);
    }
  }

  /** Text without line breaks decodes to these bytes exactly if it is their encoding, but for bits not looked at. */
  lemma {:induction false} DecodeQuantaExactly(enc: Encoding, t: string, b: seq<byte>)
    ensures DecodeQuanta(enc, t) == Some(b) <==> Alike(enc, t, Encode(enc, b), |b|)
    decreases |b|
  {
    if |b| == 0 {
      if DecodeQuanta(enc, t) == Some(b) { DecodedShape(enc, t); }
    } else if |b| == 1 {
      assert b == [b[0]];
      OneByteAlike(enc, t, b[0]);
      OneByteText(enc, t, b);
    } else if |b| == 2 {
      assert b == [b[0], b[1]];
      TwoBytesDecode(enc, t, b);
    } else {
      QuantumDecode(enc, t, b);
      DecodeQuantaExactly(enc, t[if |t| >= 4 then 4 else 0..], b[3..]);
      QuantumText(enc, t, b);
    }
  }

  lemma TwoBytesDecode(enc: Encoding, t: string, b: seq<byte>)
    requires |b| == 2 && b == [b[0], b[1]]
    ensures DecodeQuanta(enc, t) == Some(b) <==> Alike(enc, t, Encode(enc, b), 2)
  {
    TwoBytesShape(enc, t, b[0], b[1]);
    TwoBytesText(enc, t, b);
    if |t| >= 3 && ValueOf(enc, t[0]).Some? && ValueOf(enc, t[1]).Some? && ValueOf(enc, t[2]).Some? {
      TwoBytesOf(ValueOf(enc, t[0]).value, ValueOf(enc, t[1]).value, ValueOf(enc, t[2]).value, b[0], b[1]);
    }
  }

  lemma QuantumDecode(enc: Encoding, t: string, b: seq<byte>)
    requires |b| >= 3
    ensures DecodeQuanta(enc, t) == Some(b) <==>
      |t| >= 4 && ValueOf(enc, t[0]) == Some(b[0] / 4) && ValueOf(enc, t[1]) == Some(b[0] % 4 * 16 + b[1] / 16) &&
      ValueOf(enc, t[2]) == Some(b[1] % 16 * 4 + b[2] / 64) && ValueOf(enc, t[3]) == Some(b[2] % 64) &&
      DecodeQuanta(enc, t[4..]) == Some(b[3..])
  {
    QuantumShape(enc, t, b);
    if |t| >= 4 && ValueOf(enc, t[0]).Some? && ValueOf(enc, t[1]).Some? && ValueOf(enc, t[2]).Some? &&
       ValueOf(enc, t[3]).Some? {
      ThreeBytesOf(ValueOf(enc, t[0]).value, ValueOf(enc, t[1]).value, ValueOf(enc, t[2]).value,
                   ValueOf(enc, t[3]).value, b[0], b[1], b[2]);
    }
  }

  /** What is left when the line breaks are dropped: the other characters, in order. */
  lemma {:induction false} SkipsLineBreaks(a: string, c: char, b: string)
    ensures SkipLineBreaks(a + [c] + b) ==
      if c == '\r' || c == '\n' then SkipLineBreaks(a + b) else SkipLineBreaks(a) + [c] + SkipLineBreaks(b)
  {
    if a == "" {
      assert a + [c] + b == [c] + b && a + b == b && ([c] + b)[1..] == b;
    } else {
      SkipsLineBreaks(a[1..], c, b);
      assert (a + [c] + b)[1..] == a[1..] + [c] + b && (a + b)[1..] == a[1..] + b;
    }
  }

  /**
   * A text decodes to these bytes exactly if, without its line breaks, it is their encoding, but for the bits of its
   * last character that do not count. Nothing else decodes.
   */
  lemma DecodeExactly(enc: Encoding, s: string, b: seq<byte>)
    ensures Decode(enc, s) == Some(b) <==> Alike(enc, SkipLineBreaks(s), Encode(enc, b), |b|)
  {
    DecodeQuantaExactly(enc, SkipLineBreaks(s), b);
  }
}
