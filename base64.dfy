/**
 * The Base64 encoding of section 4 of RFC 4648, as `base64.b64encode`
 * produces it: every three bytes become four characters of the alphabet
 * `A`-`Z`, `a`-`z`, `0`-`9`, `+`, `/`, and a final group of one or two bytes
 * is completed with `=`. The decoder is the strict inverse used to state
 * what the encoding preserves.
 */
module Base64 {
  import opened Wrappers
  import opened Bytes
  type sextet = x: int | 0 <= x < 64

  const Pad: char := '='

  /** The character of the alphabet for a 6-bit value. */
  function DigitChar(d: sextet): (c: char)
    ensures c != Pad
  {
    if d < 26 then ('A' as int + d) as char
    else if d < 52 then ('a' as int + d - 26) as char
    else if d < 62 then ('0' as int + d - 52) as char
    else if d == 62 then '+'
    else '/'
  }

  /** The 6-bit value of a character of the alphabet, if it is one. */
  function CharDigit(c: char): (r: Option<sextet>)
    ensures r.Some? ==> DigitChar(r.value) == c
  {
    if 'A' <= c <= 'Z' then Some(c as int - 'A' as int)
    else if 'a' <= c <= 'z' then Some(c as int - 'a' as int + 26)
    else if '0' <= c <= '9' then Some(c as int - '0' as int + 52)
    else if c == '+' then Some(62)
    else if c == '/' then Some(63)
    else None
  }

  /** Every character the encoder writes reads back as its value. */
  lemma DigitRoundTrip(d: sextet)
    ensures CharDigit(DigitChar(d)) == Some(d)
  {
  }

  /** The four sextets of three bytes `b0 b1 b2`, high bits first. */
  function Split0(b0: byte): sextet { b0 / 4 }
  function Split1(b0: byte, b1: byte): sextet { (b0 % 4) * 16 + b1 / 16 }
  function Split2(b1: byte, b2: byte): sextet { (b1 % 16) * 4 + b2 / 64 }
  function Split3(b2: byte): sextet { b2 % 64 }

  /** The three bytes of four sextets `c0 c1 c2 c3`. */
  function Join0(c0: sextet, c1: sextet): byte { c0 * 4 + c1 / 16 }
  function Join1(c1: sextet, c2: sextet): byte { (c1 % 16) * 16 + c2 / 4 }
  function Join2(c2: sextet, c3: sextet): byte { (c2 % 4) * 64 + c3 }

  /** Joining the sextets of three bytes gives the bytes back. */
  lemma JoinSplit(b0: byte, b1: byte, b2: byte)
    ensures Join0(Split0(b0), Split1(b0, b1)) == b0
    ensures Join1(Split1(b0, b1), Split2(b1, b2)) == b1
    ensures Join2(Split2(b1, b2), Split3(b2)) == b2
  {
  }

  /** The sextet that padding follows keeps only zero bits below the data. */
  lemma PaddingBitsZero(b0: byte, b1: byte)
    ensures Split1(b0, 0) % 16 == 0
    ensures Split2(b1, 0) % 4 == 0
  {
    assert Split1(b0, 0) == (b0 % 4) * 16;
    assert Split2(b1, 0) == (b1 % 16) * 4;
  }

  /** Splitting the bytes of four sextets gives the sextets back, including
      when the sextets that padding replaces carried only zero bits. */
  lemma SplitJoin(c0: sextet, c1: sextet, c2: sextet, c3: sextet)
    ensures Split0(Join0(c0, c1)) == c0
    ensures Split1(Join0(c0, c1), Join1(c1, c2)) == c1
    ensures Split2(Join1(c1, c2), Join2(c2, c3)) == c2
    ensures Split3(Join2(c2, c3)) == c3
    ensures c2 % 4 == 0 ==> Split2(Join1(c1, c2), 0) == c2
    ensures c1 % 16 == 0 ==> Split1(Join0(c0, c1), 0) == c1
  {
  }

  /** Four characters for three bytes: the 24 bits cut into four sextets. */
  function EncodeTriple(b0: byte, b1: byte, b2: byte): string {
    [DigitChar(Split0(b0)), DigitChar(Split1(b0, b1)), DigitChar(Split2(b1, b2)), DigitChar(Split3(b2))]
  }

  /** The final group for two bytes: 16 bits padded with zero bits to 18,
      then one `=`. */
  function EncodePair(b0: byte, b1: byte): string {
    [DigitChar(Split0(b0)), DigitChar(Split1(b0, b1)), DigitChar(Split2(b1, 0)), Pad]
  }

  /** The final group for one byte: 8 bits padded with zero bits to 12,
      then two `=`. */
  function EncodeSingle(b0: byte): string {
    [DigitChar(Split0(b0)), DigitChar(Split1(b0, 0)), Pad, Pad]
  }

  /** `base64.b64encode(b)`: one group of four characters for every started
      group of three bytes. */
  function Encode(b: seq<byte>): (s: string)
    ensures |s| == 4 * ((|b| + 2) / 3)
    ensures |s| % 4 == 0
    decreases |b|
  {
    if |b| == 0 then ""
    else if |b| == 1 then EncodeSingle(b[0])
    else if |b| == 2 then EncodePair(b[0], b[1])
    else EncodeTriple(b[0], b[1], b[2]) + Encode(b[3..])
  }

  /** The bytes of one group of four characters: three without padding, two
      with one `=`, one with two. A character outside the alphabet, padding
      anywhere else, or padding bits that are not zero make it invalid. */
  function DecodeGroup(q: string): (r: Option<seq<byte>>)
    requires |q| == 4
    ensures r.Some? ==> 1 <= |r.value| <= 3
  {
    var d0, d1, d2, d3 := CharDigit(q[0]), CharDigit(q[1]), CharDigit(q[2]), CharDigit(q[3]);
    if d0.None? || d1.None? then None
    else if d2.Some? && d3.Some? then
      Some([Join0(d0.value, d1.value), Join1(d1.value, d2.value), Join2(d2.value, d3.value)])
    else if d2.Some? && q[3] == Pad && d2.value % 4 == 0 then
      Some([Join0(d0.value, d1.value), Join1(d1.value, d2.value)])
    else if d2.None? && q[2] == Pad && q[3] == Pad && d1.value % 16 == 0 then
      Some([Join0(d0.value, d1.value)])
    else None
  }

  /** Strict decoding: groups of four characters, padding only in the last. */
  function Decode(s: string): (r: Option<seq<byte>>)
    decreases |s|
  {
    if |s| == 0 then Some([])
    else if |s| < 4 then None
    else match DecodeGroup(s[..4])
      case None => None
      case Some(g) =>
        if |s| == 4 then Some(g)
        else if |g| < 3 then None
        else match Decode(s[4..])
          case None => None
          case Some(rest) => Some(g + rest)
  }

  lemma TripleRoundTrip(b0: byte, b1: byte, b2: byte)
    ensures DecodeGroup(EncodeTriple(b0, b1, b2)) == Some([b0, b1, b2])
  {
    var q := EncodeTriple(b0, b1, b2);
    var c0, c1, c2, c3 := Split0(b0), Split1(b0, b1), Split2(b1, b2), Split3(b2);
    assert CharDigit(q[0]) == Some(c0) && CharDigit(q[1]) == Some(c1) by {
      DigitRoundTrip(c0);
      DigitRoundTrip(c1);
    }
    assert CharDigit(q[2]) == Some(c2) && CharDigit(q[3]) == Some(c3) by {
      DigitRoundTrip(c2);
      DigitRoundTrip(c3);
    }
    assert Join0(c0, c1) == b0 && Join1(c1, c2) == b1 && Join2(c2, c3) == b2 by {
      JoinSplit(b0, b1, b2);
    }
  }

  lemma PairRoundTrip(b0: byte, b1: byte)
    ensures DecodeGroup(EncodePair(b0, b1)) == Some([b0, b1])
  {
    var q := EncodePair(b0, b1);
    var c0, c1, c2 := Split0(b0), Split1(b0, b1), Split2(b1, 0);
    assert CharDigit(q[0]) == Some(c0) && CharDigit(q[1]) == Some(c1) && CharDigit(q[2]) == Some(c2) by {
      DigitRoundTrip(c0);
      DigitRoundTrip(c1);
      DigitRoundTrip(c2);
    }
    assert CharDigit(q[3]) == None && q[3] == Pad;
    assert c2 % 4 == 0 by {
      PaddingBitsZero(b0, b1);
    }
    assert Join0(c0, c1) == b0 && Join1(c1, c2) == b1 by {
      JoinSplit(b0, b1, 0);
    }
  }

  lemma SingleRoundTrip(b0: byte)
    ensures DecodeGroup(EncodeSingle(b0)) == Some([b0])
  {
    var q := EncodeSingle(b0);
    var c0, c1 := Split0(b0), Split1(b0, 0);
    assert CharDigit(q[0]) == Some(c0) && CharDigit(q[1]) == Some(c1) by {
      DigitRoundTrip(c0);
      DigitRoundTrip(c1);
    }
    assert CharDigit(q[2]) == None && q[2] == Pad && q[3] == Pad;
    assert c1 % 16 == 0 by {
      PaddingBitsZero(b0, 0);
    }
    assert Join0(c0, c1) == b0 by {
      JoinSplit(b0, 0, 0);
    }
  }

  /** A full group in front of a decodable string decodes to its three
      bytes in front of what that string decodes to. */
  lemma DecodeCons(q: string, t: string)
    requires |q| == 4 && DecodeGroup(q).Some? && |DecodeGroup(q).value| == 3
    requires Decode(t).Some?
    ensures Decode(q + t) == Some(DecodeGroup(q).value + Decode(t).value)
  {
    var s := q + t;
    assert s[..4] == q;
    if |t| == 0 {
      assert s == q;
      assert DecodeGroup(q).value + [] == DecodeGroup(q).value;
    } else {
      assert s[4..] == t;
    }
  }

  lemma EncodeCons(b: seq<byte>)
    requires |b| >= 3
    ensures Encode(b) == EncodeTriple(b[0], b[1], b[2]) + Encode(b[3..])
  {
  }

  lemma TakeThree(b: seq<byte>)
    requires |b| >= 3
    ensures [b[0], b[1], b[2]] + b[3..] == b
  {
  }

  /** Decoding undoes encoding: `b64decode(b64encode(b)) == b`. */
  lemma {:induction false} DecodeEncode(b: seq<byte>)
    ensures Decode(Encode(b)) == Some(b)
    decreases |b|
  {
    if |b| == 1 {
      SingleRoundTrip(b[0]);
      assert [b[0]] == b;
    } else if |b| == 2 {
      PairRoundTrip(b[0], b[1]);
      assert [b[0], b[1]] == b;
    } else if |b| >= 3 {
      var head := EncodeTriple(b[0], b[1], b[2]);
      EncodeCons(b);
      TripleRoundTrip(b[0], b[1], b[2]);
      DecodeEncode(b[3..]);
      DecodeCons(head, Encode(b[3..]));
      TakeThree(b);
    }
  }

  lemma TripleCanonical(q: string)
    requires |q| == 4 && DecodeGroup(q).Some? && |DecodeGroup(q).value| == 3
    ensures var g := DecodeGroup(q).value; EncodeTriple(g[0], g[1], g[2]) == q
  {
    var c0, c1, c2, c3 := CharDigit(q[0]).value, CharDigit(q[1]).value, CharDigit(q[2]).value, CharDigit(q[3]).value;
    SplitJoin(c0, c1, c2, c3);
    var e := EncodeTriple(Join0(c0, c1), Join1(c1, c2), Join2(c2, c3));
    assert e[0] == q[0] && e[1] == q[1] && e[2] == q[2] && e[3] == q[3];
  }

  lemma PairCanonical(q: string)
    requires |q| == 4 && DecodeGroup(q).Some? && |DecodeGroup(q).value| == 2
    ensures var g := DecodeGroup(q).value; EncodePair(g[0], g[1]) == q
  {
    var c0, c1, c2 := CharDigit(q[0]).value, CharDigit(q[1]).value, CharDigit(q[2]).value;
    SplitJoin(c0, c1, c2, 0);
    var e := EncodePair(Join0(c0, c1), Join1(c1, c2));
    assert e[0] == q[0] && e[1] == q[1] && e[2] == q[2] && e[3] == q[3];
  }

  /** A group that decodes to one byte is two digits, the second with
      its low four bits clear, and two `=`. */
  lemma SingleShape(q: string)
    requires |q| == 4 && DecodeGroup(q).Some? && |DecodeGroup(q).value| == 1
    ensures CharDigit(q[0]).Some? && CharDigit(q[1]).Some? && q[2] == Pad && q[3] == Pad
    ensures CharDigit(q[1]).value % 16 == 0
    ensures DecodeGroup(q).value == [Join0(CharDigit(q[0]).value, CharDigit(q[1]).value)]
  {
  }

  lemma FourChars(q: string, c0: char, c1: char, c2: char, c3: char)
    requires |q| == 4 && q[0] == c0 && q[1] == c1 && q[2] == c2 && q[3] == c3
    ensures q == [c0, c1, c2, c3]
  {
  }

  lemma SingleOf(b0: byte, c0: sextet, c1: sextet)
    requires Split0(b0) == c0 && Split1(b0, 0) == c1
    ensures EncodeSingle(b0) == [DigitChar(c0), DigitChar(c1), Pad, Pad]
  {
  }

  lemma SingleCanonical(q: string)
    requires |q| == 4 && DecodeGroup(q).Some? && |DecodeGroup(q).value| == 1
    ensures var g := DecodeGroup(q).value; EncodeSingle(g[0]) == q
  {
    SingleShape(q);
    var c0, c1 := CharDigit(q[0]).value, CharDigit(q[1]).value;
    SplitJoin(c0, c1, 0, 0);
    SingleOf(Join0(c0, c1), c0, c1);
    assert DigitChar(c0) == q[0];
    assert DigitChar(c1) == q[1];
    FourChars(q, DigitChar(c0), DigitChar(c1), Pad, Pad);
  }

  /** A group the decoder accepts is exactly what the encoder writes for
      its bytes: the encoding has one spelling per byte string. */
  lemma GroupCanonical(q: string)
    requires |q| == 4 && DecodeGroup(q).Some?
    ensures var g := DecodeGroup(q).value;
            if |g| == 3 then EncodeTriple(g[0], g[1], g[2]) == q
            else if |g| == 2 then EncodePair(g[0], g[1]) == q
            else EncodeSingle(g[0]) == q
  {
    var g := DecodeGroup(q).value;
    if |g| == 3 {
      TripleCanonical(q);
    } else if |g| == 2 {
      PairCanonical(q);
    } else {
      SingleCanonical(q);
    }
  }

  /** Encoding undoes decoding: a string the strict decoder accepts is the
      encoding of what it decodes to. */
  lemma {:induction false} EncodeDecode(s: string)
    requires Decode(s).Some?
    ensures Encode(Decode(s).value) == s
    decreases |s|
  {
    if |s| > 0 {
      var g := DecodeGroup(s[..4]).value;
      GroupCanonical(s[..4]);
      if |s| == 4 {
        assert s[..4] == s;
      } else {
        var rest := Decode(s[4..]).value;
        EncodeDecode(s[4..]);
        var b := g + rest;
        assert b[..3] == g && b[3..] == rest;
        assert s == s[..4] + s[4..];
      }
    }
  }

  /** The test vectors of section 10 of RFC 4648, which pin the alphabet,
      the bit order and the padding: "f", "fo", "foo" and "foob". */
  lemma StandardVectors()
    ensures Encode([102]) == "Zg=="
    ensures Encode([102, 111]) == "Zm8="
    ensures Encode([102, 111, 111]) == "Zm9v"
    ensures Encode([102, 111, 111, 98]) == "Zm9vYg=="
  {
  }
}
