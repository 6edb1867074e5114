/**
 * The few Python `str` operations the service relies on: slicing with
 * clamped bounds, `strip`/`lstrip`/`rstrip` (with no argument, or with a
 * set of characters), `capitalize`, `find`, and `str(int)`.
 */
module Strings {
  import opened Wrappers

  /** Python's `str.isspace()` for one character: the ASCII blanks and the
      Unicode separators, and never a letter, a digit or the characters a
      `.env` line is split at. */
  predicate IsSpace(c: char)
    ensures '\t' <= c <= '\r' || '\U{1C}' <= c <= ' ' ==> IsSpace(c)
    ensures '0' <= c <= '9' || 'A' <= c <= 'Z' || 'a' <= c <= 'z' ==> !IsSpace(c)
    ensures c == '=' || c == '#' || c == '"' || c == '\'' ==> !IsSpace(c)
  {
    || '\t' <= c <= '\r'
    || '\U{1C}' <= c <= ' '
    || c == '\U{85}' || c == '\U{A0}' || c == '\U{1680}'
    || '\U{2000}' <= c <= '\U{200A}'
    || c == '\U{2028}' || c == '\U{2029}' || c == '\U{202F}' || c == '\U{205F}'
    || c == '\U{3000}'
  }

  /** `s` occurs in `text` starting at position `k`. */
  predicate ContainsAt(text: string, s: string, k: nat) {
    k + |s| <= |text| && text[k..k + |s|] == s
  }

  ghost predicate Contains(text: string, s: string) {
    exists k: nat :: ContainsAt(text, s, k)
  }

  /** No string is listed twice. */
  ghost predicate Distinct(s: seq<string>) {
    forall i, j :: 0 <= i < j < |s| ==> s[i] != s[j]
  }

  lemma DropPrefix(p: string, q: string)
    ensures (p + q)[..|p|] == p && (p + q)[|p|..] == q
  {
  }

  /** The text of an f-string: its literal and interpolated parts, in order. */
  function Join(parts: seq<string>): string
    decreases |parts|
  {
    if |parts| == 0 then "" else Join(parts[..|parts| - 1]) + parts[|parts| - 1]
  }

  /** Every part of an f-string occurs in its text, right after the parts
      before it. */
  lemma {:induction false} JoinShows(parts: seq<string>, i: nat)
    requires i < |parts|
    ensures ContainsAt(Join(parts), parts[i], |Join(parts[..i])|)
    decreases |parts|
  {
    var n := |parts| - 1;
    var init := parts[..n];
    if i == n {
      assert Join(parts)[|Join(init)|..] == parts[n];
    } else {
      JoinShows(init, i);
      assert init[..i] == parts[..i] && init[i] == parts[i];
      var k := |Join(parts[..i])|;
      assert Join(parts)[k..k + |parts[i]|] == Join(init)[k..k + |parts[i]|];
    }
  }

  /** Every part of an f-string occurs in its text. */
  lemma JoinShowsAll(parts: seq<string>)
    ensures forall i :: 0 <= i < |parts| ==> Contains(Join(parts), parts[i])
  {
    forall i | 0 <= i < |parts| ensures Contains(Join(parts), parts[i]) {
      JoinShows(parts, i);
    }
  }

  /** Python's `s[:n]`: the first `n` characters, or all of `s` when it is shorter. */
  function Head(s: string, n: nat): (r: string)
    ensures |r| == if |s| < n then |s| else n
    ensures r <= s
  {
    if |s| <= n then s else s[..n]
  }

  /** Python's `s[-n:]`: the last `n` characters, or all of `s` when it is shorter
      (and all of `s` when `n` is 0, since `-0` is `0`). */
  function Last(s: string, n: nat): (r: string)
    ensures n == 0 ==> r == s
    ensures n > 0 ==> |r| == if |s| < n then |s| else n
    ensures r == s[|s| - |r|..]
  {
    if n == 0 || |s| <= n then s else s[|s| - n..]
  }

  /** Python's `s.lstrip(chars)`: drop every leading character `drop` holds of. */
  function LStrip(s: string, drop: char -> bool): (r: string)
    ensures |r| <= |s| && r == s[|s| - |r|..]
    ensures forall i :: 0 <= i < |s| - |r| ==> drop(s[i])
    ensures |r| > 0 ==> !drop(r[0])
    decreases |s|
  {
    if |s| > 0 && drop(s[0]) then LStrip(s[1..], drop) else s
  }

  /** Python's `s.rstrip(chars)`: drop every trailing character `drop` holds of. */
  function RStrip(s: string, drop: char -> bool): (r: string)
    ensures |r| <= |s| && r == s[..|r|]
    ensures forall i :: |r| <= i < |s| ==> drop(s[i])
    ensures |r| > 0 ==> !drop(r[|r| - 1])
    decreases |s|
  {
    if |s| > 0 && drop(s[|s| - 1]) then RStrip(s[..|s| - 1], drop) else s
  }

  /** Python's `s.strip(chars)`: the longest middle part of `s` that neither
      starts nor ends with a character `drop` holds of. It is the slice of `s`
      that ends where `rstrip` stops. */
  function Strip(s: string, drop: char -> bool): (r: string)
    ensures |r| <= |RStrip(s, drop)| && r == s[|RStrip(s, drop)| - |r|..|RStrip(s, drop)|]
    ensures forall k :: 0 <= k < |RStrip(s, drop)| - |r| ==> drop(s[k])
    ensures |r| > 0 ==> !drop(r[0]) && !drop(r[|r| - 1])
  {
    var t := RStrip(s, drop);
    var r := LStrip(t, drop);
    PrefixSlices(s, t, |t| - |r|);
    r
  }

  lemma PrefixSlices(s: string, t: string, i: nat)
    requires |t| <= |s| && t == s[..|t|] && i <= |t|
    ensures t[i..] == s[i..|t|]
    ensures forall k :: 0 <= k < |t| ==> t[k] == s[k]
  {
  }

  /** A string made only of characters to drop strips to nothing. */
  lemma StripAllDropped(s: string, drop: char -> bool)
    requires forall k :: 0 <= k < |s| ==> drop(s[k])
    ensures Strip(s, drop) == []
  {
    assert RStrip(s, drop) == [];
  }

  /** Stripping leaves nothing exactly when every character is dropped. */
  lemma StripEmpty(s: string, drop: char -> bool)
    ensures Strip(s, drop) == [] <==> forall i :: 0 <= i < |s| ==> drop(s[i])
  {
    var k := Strip(s, drop);
    if k == [] {
      assert forall i :: 0 <= i < |RStrip(s, drop)| - |k| ==> drop(s[i]);
    }
    if forall i :: 0 <= i < |s| ==> drop(s[i]) {
      StripAllDropped(s, drop);
    }
  }

  /** What stripping keeps is a piece of the string. */
  lemma StripInside(s: string, drop: char -> bool)
    ensures Contains(s, Strip(s, drop))
  {
    var k := Strip(s, drop);
    var n := |RStrip(s, drop)|;
    var i := n - |k|;
    assert i + |k| == n && n <= |s|;
    assert s[i..i + |k|] == k;
    assert ContainsAt(s, k, i);
  }

  /** Stripping leaves a string alone when its ends are already clean. */
  lemma StripNoop(s: string, drop: char -> bool)
    requires |s| > 0 ==> !drop(s[0]) && !drop(s[|s| - 1])
    ensures Strip(s, drop) == s
  {
  }

  /** Python's `s.find(c)` for one character: its first position, if any. */
  function Find(s: string, c: char): (r: Option<nat>)
    ensures r.None? <==> c !in s
    ensures r.Some? ==> r.value < |s| && s[r.value] == c && c !in s[..r.value]
    decreases |s|
  {
    if |s| == 0 then None
    else if s[0] == c then Some(0)
    else match Find(s[1..], c)
      case None => None
      case Some(i) =>
        assert s[..i + 1] == [s[0]] + s[1..][..i];
        Some(i + 1)
  }

  predicate IsLower(c: char) { 'a' <= c <= 'z' }
  predicate IsUpper(c: char) { 'A' <= c <= 'Z' }

  function Upper(c: char): (r: char)
    ensures !IsLower(r)
    ensures IsLower(c) || r == c
  {
    if IsLower(c) then (c as int - 32) as char else c
  }

  function Lower(c: char): (r: char)
    ensures !IsUpper(r)
    ensures IsUpper(c) || r == c
  {
    if IsUpper(c) then (c as int + 32) as char else c
  }

  function LowerAll(s: string): (r: string)
    ensures |r| == |s|
    ensures forall i :: 0 <= i < |s| ==> r[i] == Lower(s[i])
  {
    seq(|s|, i requires 0 <= i < |s| => Lower(s[i]))
  }

  /** Python's `s.capitalize()` (for the ASCII letters): the first character
      in upper case and every other one in lower case. */
  function Capitalize(s: string): (r: string)
    ensures |r| == |s|
    ensures |s| > 0 ==> r[0] == Upper(s[0])
    ensures forall i :: 0 < i < |s| ==> r[i] == Lower(s[i])
  {
    if |s| == 0 then "" else [Upper(s[0])] + LowerAll(s[1..])
  }

  lemma UpperLowerFixed(c: char)
    ensures Upper(Upper(c)) == Upper(c) && Lower(Lower(c)) == Lower(c)
    ensures Upper(Lower(c)) == Upper(c) && Lower(Upper(c)) == Lower(c)
  {
  }

  /** Case mapping never turns whitespace into something else or back. */
  lemma CapitalizeKeepsSpace(s: string)
    ensures forall i :: 0 <= i < |s| ==> (IsSpace(Capitalize(s)[i]) <==> IsSpace(s[i]))
  {
  }

  /** Capitalizing twice is capitalizing once. */
  lemma CapitalizeIdempotent(s: string)
    ensures Capitalize(Capitalize(s)) == Capitalize(s)
  {
    var c := Capitalize(s);
    var cc := Capitalize(c);
    if |s| > 0 {
      UpperLowerFixed(s[0]);
      forall i | 0 < i < |s| ensures cc[i] == c[i] {
        UpperLowerFixed(s[i]);
      }
    }
  }

  function DigitChar(d: nat): (c: char)
    requires d < 10
    ensures '0' <= c <= '9'
  {
    (48 + d) as char
  }

  /** Python's `str(n)` for a natural number: its decimal digits, no leading zeros. */
  function NatToString(n: nat): (s: string)
    ensures |s| > 0
    ensures forall i :: 0 <= i < |s| ==> '0' <= s[i] <= '9'
    ensures s[0] == '0' <==> n == 0
    ensures n == 0 ==> s == "0"
    decreases n
  {
    if n < 10 then [DigitChar(n)] else NatToString(n / 10) + [DigitChar(n % 10)]
  }

  /** The value of a string of decimal digits. */
  function DecimalValue(s: string): nat
    requires forall i :: 0 <= i < |s| ==> '0' <= s[i] <= '9'
  {
    if |s| == 0 then 0 else 10 * DecimalValue(s[..|s| - 1]) + (s[|s| - 1] as int - 48)
  }

  /** Printing a natural number and reading it back gives the number. */
  lemma {:induction false} NatToStringRoundTrip(n: nat)
    ensures DecimalValue(NatToString(n)) == n
    decreases n
  {
    if n >= 10 {
      NatToStringRoundTrip(n / 10);
      var s := NatToString(n);
      assert s[..|s| - 1] == NatToString(n / 10);
    }
  }

  /** Python's `str(i)` for an integer. */
  function IntToString(i: int): (s: string)
    ensures |s| > 0
    ensures i >= 0 ==> s == NatToString(i)
    ensures i < 0 ==> s == "-" + NatToString(-i)
  {
    if i < 0 then "-" + NatToString(-i) else NatToString(i)
  }

  /** `str(m / 2)` for a natural number: the digits of half of it, then
      ".0" or ".5". */
  function HalfOfNat(m: nat): (s: string)
    ensures |s| >= 3 && '0' <= s[0] <= '9'
    ensures s[|s| - 2..] == if m % 2 == 0 then ".0" else ".5"
    ensures (forall i :: 0 <= i < |s| - 2 ==> '0' <= s[i] <= '9') && DecimalValue(s[..|s| - 2]) == m / 2
    ensures s[0] == '0' ==> |s| == 3
  {
    var digits := NatToString(m / 2);
    NatToStringRoundTrip(m / 2);
    var s := digits + (if m % 2 == 0 then ".0" else ".5");
    assert s[..|s| - 2] == digits;
    s
  }

  lemma SameParity(w: int)
    ensures w % 2 == (-w) % 2
  {
  }

  /** Python's `str(w / 2)` for an integer `w`: true division gives a float,
      printed with a sign when negative, the digits of half of `|w|`, and
      ".0" or ".5". */
  function HalfToString(w: int): (s: string)
    ensures |s| >= 3
    ensures s[|s| - 2..] == if w % 2 == 0 then ".0" else ".5"
    ensures s[0] == '-' <==> w < 0
    ensures var start := if w < 0 then 1 else 0;
            start < |s| - 2 &&
            (forall i :: start <= i < |s| - 2 ==> '0' <= s[i] <= '9') &&
            DecimalValue(s[start..|s| - 2]) == (if w < 0 then -w else w) / 2
    ensures var start := if w < 0 then 1 else 0;
            s[start] == '0' ==> start + 1 == |s| - 2
  {
    if w < 0 then
      var t := HalfOfNat(-w);
      SameParity(w);
      assert ("-" + t)[1..|t| + 1 - 2] == t[..|t| - 2];
      "-" + t
    else HalfOfNat(w)
  }
}
