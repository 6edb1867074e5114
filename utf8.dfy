/**
 * The UTF-8 encoding of RFC 3629, as `str.encode("utf-8")` produces it for
 * strings of Unicode scalar values: one to four bytes per character. The
 * decoder is the strict inverse (no overlong forms, no surrogates, nothing
 * above U+10FFFF) used to state what the encoding preserves.
 */
module Utf8 {
  import opened Wrappers
  import opened Bytes

  /** The number of bytes UTF-8 spends on a code point. */
  function Width(c: char): (n: nat)
    ensures 1 <= n <= 4
  {
    var v := c as int;
    if v < 0x80 then 1 else if v < 0x800 then 2 else if v < 0x1_0000 then 3 else 4
  }

  predicate IsContinuation(b: byte) { 0x80 <= b < 0xC0 }

  /** The length of the sequence a lead byte starts, or 0 for a byte that
      cannot start one. */
  function LeadWidth(b: byte): nat {
    if b < 0x80 then 1
    else if 0xC2 <= b < 0xE0 then 2
    else if 0xE0 <= b < 0xF0 then 3
    else if 0xF0 <= b < 0xF5 then 4
    else 0
  }

  /** The bytes of one character: a lead byte that announces the length,
      then six bits per continuation byte. */
  function EncodeChar(c: char): (r: seq<byte>)
    ensures |r| == Width(c)
    ensures LeadWidth(r[0]) == |r|
    ensures forall i :: 1 <= i < |r| ==> IsContinuation(r[i])
  {
    var v := c as int;
    if v < 0x80 then [v]
    else if v < 0x800 then [0xC0 + v / 64, 0x80 + v % 64]
    else if v < 0x1_0000 then [0xE0 + v / 4096, 0x80 + (v / 64) % 64, 0x80 + v % 64]
    else [0xF0 + v / 262144, 0x80 + (v / 4096) % 64, 0x80 + (v / 64) % 64, 0x80 + v % 64]
  }

  /** `str.encode("utf-8")`: the characters' byte sequences, in order. */
  function Encode(s: string): (r: seq<byte>)
    ensures |s| <= |r| <= 4 * |s|
    decreases |s|
  {
    if |s| == 0 then [] else EncodeChar(s[0]) + Encode(s[1..])
  }

  /** The payload bits of a byte below its marker bits. */
  function Bits(b: byte, marker: int): int {
    b as int - marker
  }

  /** The number a lead byte and its continuation bytes spell: the bits
      after the lead byte's length marker, then six bits per continuation. */
  function CodePoint(q: seq<byte>): int
    requires 1 <= |q| <= 4
  {
    if |q| == 1 then q[0]
    else if |q| == 2 then Bits(q[0], 0xC0) * 64 + Bits(q[1], 0x80)
    else if |q| == 3 then (Bits(q[0], 0xE0) * 64 + Bits(q[1], 0x80)) * 64 + Bits(q[2], 0x80)
    else ((Bits(q[0], 0xF0) * 64 + Bits(q[1], 0x80)) * 64 + Bits(q[2], 0x80)) * 64 + Bits(q[3], 0x80)
  }

  /** The smallest code point that needs `n` bytes. */
  function Least(n: nat): int {
    if n <= 1 then 0 else if n == 2 then 0x80 else if n == 3 then 0x800 else 0x1_0000
  }

  /** Division by 64 recovers the six low bits and the rest. */
  lemma SixBits(v: int, hi: int, lo: int)
    requires v == hi * 64 + lo && 0 <= lo < 64
    ensures v / 64 == hi && v % 64 == lo
  {
  }

  /** A well-formed sequence of continuation bytes is the encoding of the
      number it spells. */
  lemma EncodeCodePoint(q: seq<byte>)
    requires 1 <= |q| <= 4 && LeadWidth(q[0]) == |q|
    requires forall i :: 1 <= i < |q| ==> IsContinuation(q[i])
    requires Least(|q|) <= CodePoint(q) && (CodePoint(q) < 0xD800 || 0xE000 <= CodePoint(q) < 0x11_0000)
    ensures Width(CodePoint(q) as char) == |q| && EncodeChar(CodePoint(q) as char) == q
  {
    var v := CodePoint(q);
    if |q| == 2 {
      SixBits(v, Bits(q[0], 0xC0), Bits(q[1], 0x80));
    } else if |q| == 3 {
      var w := Bits(q[0], 0xE0) * 64 + Bits(q[1], 0x80);
      SixBits(v, w, Bits(q[2], 0x80));
      SixBits(w, Bits(q[0], 0xE0), Bits(q[1], 0x80));
      assert v / 4096 == w / 64;
    } else if |q| == 4 {
      var x := Bits(q[0], 0xF0) * 64 + Bits(q[1], 0x80);
      var w := x * 64 + Bits(q[2], 0x80);
      SixBits(v, w, Bits(q[3], 0x80));
      SixBits(w, x, Bits(q[2], 0x80));
      SixBits(x, Bits(q[0], 0xF0), Bits(q[1], 0x80));
      assert v / 4096 == w / 64;
      assert v / 262144 == x / 64;
    }
  }

  /** The character a complete byte sequence stands for, if it is the
      shortest form of a Unicode scalar value; the sequence is then that
      character's encoding. */
  function DecodeChar(q: seq<byte>): (r: Option<char>)
    requires 1 <= |q| <= 4 && LeadWidth(q[0]) == |q|
    ensures r.Some? ==> EncodeChar(r.value) == q
  {
    if exists i :: 1 <= i < |q| && !IsContinuation(q[i]) then None
    else
      var v := CodePoint(q);
      if Least(|q|) <= v && (v < 0xD800 || 0xE000 <= v < 0x11_0000) then
        EncodeCodePoint(q);
        Some(v as char)
      else None
  }

  /** Strict decoding, as `bytes.decode("utf-8")`: `None` where it raises. */
  function Decode(b: seq<byte>): (r: Option<string>)
    decreases |b|
  {
    if |b| == 0 then Some("")
    else
      var n := LeadWidth(b[0]);
      if n == 0 || |b| < n then None
      else match DecodeChar(b[..n])
        case None => None
        case Some(c) =>
          match Decode(b[n..])
          case None => None
          case Some(rest) => Some([c] + rest)
  }

  /** The number the bytes of a character spell is its code point. */
  lemma CodePointOfEncoding(c: char)
    ensures CodePoint(EncodeChar(c)) == c as int
  {
    var v := c as int;
    var q := EncodeChar(c);
    if Width(c) == 2 {
      SixBits(v, v / 64, v % 64);
    } else if Width(c) == 3 {
      SixBits(v, v / 64, v % 64);
      SixBits(v / 64, v / 4096, (v / 64) % 64);
    } else if Width(c) == 4 {
      SixBits(v, v / 64, v % 64);
      SixBits(v / 64, v / 4096, (v / 64) % 64);
      SixBits(v / 4096, v / 262144, (v / 4096) % 64);
    }
  }

  lemma CharRoundTrip(c: char)
    ensures DecodeChar(EncodeChar(c)) == Some(c)
  {
    CodePointOfEncoding(c);
  }

  lemma DecodeConsChar(c: char, t: seq<byte>)
    requires Decode(t).Some?
    ensures Decode(EncodeChar(c) + t) == Some([c] + Decode(t).value)
  {
    var q := EncodeChar(c);
    var b := q + t;
    assert b[0] == q[0];
    assert b[..|q|] == q && b[|q|..] == t;
    CharRoundTrip(c);
  }

  /** Decoding undoes encoding: `s.encode("utf-8").decode("utf-8") == s`. */
  lemma {:induction false} DecodeEncode(s: string)
    ensures Decode(Encode(s)) == Some(s)
    decreases |s|
  {
    if |s| > 0 {
      DecodeEncode(s[1..]);
      DecodeConsChar(s[0], Encode(s[1..]));
      assert [s[0]] + s[1..] == s;
    }
  }

  /** Encoding undoes decoding: bytes the strict decoder accepts are the
      encoding of the string they decode to. */
  lemma {:induction false} EncodeDecode(b: seq<byte>)
    requires Decode(b).Some?
    ensures Encode(Decode(b).value) == b
    decreases |b|
  {
    if |b| > 0 {
      var n := LeadWidth(b[0]);
      var c := DecodeChar(b[..n]).value;
      var rest := Decode(b[n..]).value;
      EncodeDecode(b[n..]);
      var s := [c] + rest;
      assert s[0] == c && s[1..] == rest;
      assert b == b[..n] + b[n..];
    }
  }

  predicate IsAscii(s: string) {
    forall i :: 0 <= i < |s| ==> s[i] as int < 0x80
  }

  /** An ASCII string is its own encoding, one byte per character. */
  lemma {:induction false} AsciiEncoding(s: string)
    requires IsAscii(s)
    ensures |Encode(s)| == |s|
    ensures forall i :: 0 <= i < |s| ==> Encode(s)[i] == s[i] as int
    decreases |s|
  {
    if |s| > 0 {
      AsciiEncoding(s[1..]);
    }
  }

  /** Encoding distributes over concatenation. */
  lemma {:induction false} EncodeAppend(s: string, t: string)
    ensures Encode(s + t) == Encode(s) + Encode(t)
    decreases |s|
  {
    if |s| > 0 {
      assert (s + t)[1..] == s[1..] + t;
      assert (s + t)[0] == s[0];
      EncodeAppend(s[1..], t);
    } else {
      assert s + t == t;
    }
  }
}
