/**
  Text helpers shared by the handlers: decimal rendering of numbers (as
  JavaScript's `String(n)` and ffmpeg's option parser see them), substring
  search (Python's `needle in text`) and ASCII case folding.
*/
module Strings {

  predicate IsDigit(c: char) {
    '0' <= c <= '9'
  }

  predicate AllDigits(s: string) {
    forall i :: 0 <= i < |s| ==> IsDigit(s[i])
  }

  function DigitChar(d: nat): (c: char)
    requires d < 10
    ensures IsDigit(c) && c as int - '0' as int == d
  {
    ('0' as int + d) as char
  }

  /** The shortest decimal spelling of `n`, most significant digit first. */
  function NatToDecimal(n: nat): (s: string)
    ensures |s| >= 1 && AllDigits(s)
    ensures s[0] == '0' ==> n == 0 && s == "0"
    decreases n
  {
    if n < 10 then [DigitChar(n)] else NatToDecimal(n / 10) + [DigitChar(n % 10)]
  }

  /** The number a string of decimal digits denotes (how a reader parses it back). */
  function DecimalValue(s: string): nat
    requires AllDigits(s)
  {
    if s == [] then 0 else DecimalValue(s[..|s| - 1]) * 10 + (s[|s| - 1] as int - '0' as int)
  }

  lemma {:induction false} DecimalRoundTrip(n: nat)
    ensures DecimalValue(NatToDecimal(n)) == n
  {
    if n >= 10 {
      var s := NatToDecimal(n);
      DecimalRoundTrip(n / 10);
      assert s[..|s| - 1] == NatToDecimal(n / 10);
    }
  }

  /** `needle` occurs in `hay` starting at index `k`. */
  predicate OccursAt(needle: string, hay: string, k: nat) {
    k + |needle| <= |hay| && hay[k..k + |needle|] == needle
  }

  /** Python's `needle in hay` on strings: a contiguous substring, not a word match. */
  function Contains(needle: string, hay: string): (b: bool)
    ensures b <==> exists k: nat :: OccursAt(needle, hay, k)
    decreases |hay|
  {
    if |hay| < |needle| then
      false
    else if hay[..|needle|] == needle then
      assert OccursAt(needle, hay, 0);
      true
    else
      var rest := Contains(needle, hay[1..]);
      ContainsStep(needle, hay);
      rest
  }

  /** An occurrence in `hay` not at 0 is an occurrence in `hay[1..]`, and back. */
  lemma ContainsStep(needle: string, hay: string)
    requires |hay| >= |needle| && hay[..|needle|] != needle
    ensures (exists k: nat :: OccursAt(needle, hay, k)) <==> (exists k: nat :: OccursAt(needle, hay[1..], k))
  {
    if k: nat :| OccursAt(needle, hay, k) {
      assert k != 0;
      assert hay[1..][k - 1..k - 1 + |needle|] == hay[k..k + |needle|];
      assert OccursAt(needle, hay[1..], k - 1);
    }
    if k: nat :| OccursAt(needle, hay[1..], k) {
      assert hay[1..][k..k + |needle|] == hay[k + 1..k + 1 + |needle|];
      assert OccursAt(needle, hay, k + 1);
    }
  }

  /** ASCII-only lower-casing, the folding JavaScript's `/i` regex flag applies to ASCII patterns. */
  function AsciiLower(c: char): char {
    if 'A' <= c <= 'Z' then (c as int + 32) as char else c
  }

  /**
    `s` starts with `prefix` when letters are compared without regard to
    ASCII case; `prefix` is written in lower case.
  */
  predicate StartsWithIgnoringAsciiCase(s: string, prefix: string) {
    |prefix| <= |s| && forall i :: 0 <= i < |prefix| ==> AsciiLower(s[i]) == prefix[i]
  }
}
