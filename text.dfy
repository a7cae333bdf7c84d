/**
 * Text helpers: the decimal rendering that stands in for ISO timestamps and
 * document identifiers, and the case-insensitive substring test that stands in
 * for a MongoDB `$regex` with the `i` option.
 */
module Text {
  import opened Common

  predicate IsDigit(c: char) {
    '0' <= c <= '9'
  }

  function DigitChar(d: nat): (c: char)
    requires d < 10
    ensures IsDigit(c) && DigitValue(c) == d
  {
    ('0' as int + d) as char
  }

  function DigitValue(c: char): nat
    requires IsDigit(c)
  {
    c as int - '0' as int
  }

  /** Decimal rendering of a natural number, most significant digit first. */
  function NatToString(n: nat): (s: string)
    ensures |s| > 0
    ensures forall i :: 0 <= i < |s| ==> IsDigit(s[i])
    decreases n
  {
    if n < 10 then [DigitChar(n)] else NatToString(n / 10) + [DigitChar(n % 10)]
  }

  /** Reads a non-empty string of decimal digits; None for anything else. */
  function ParseNat(s: string): Option<nat>
    decreases |s|
  {
    if |s| == 0 || !IsDigit(s[|s| - 1]) then None
    else if |s| == 1 then Some(DigitValue(s[0]))
    else
      match ParseNat(s[..|s| - 1])
      case None => None
      case Some(p) => Some(p * 10 + DigitValue(s[|s| - 1]))
  }

  /** Reading back a rendered number gives the number. */
  lemma {:induction false} ParseNatToString(n: nat)
    ensures ParseNat(NatToString(n)) == Some(n)
    decreases n
  {
    if n >= 10 {
      var s := NatToString(n);
      ParseNatToString(n / 10);
      assert s[..|s| - 1] == NatToString(n / 10);
    }
  }

  /** Distinct numbers have distinct renderings. */
  lemma NatToStringInjective(m: nat, n: nat)
    ensures NatToString(m) == NatToString(n) ==> m == n
  {
    ParseNatToString(m);
    ParseNatToString(n);
  }

  function ToLower(c: char): char {
    if 'A' <= c <= 'Z' then (c as int + 32) as char else c
  }

  function Lowered(s: string): (r: string)
    ensures |r| == |s|
    ensures forall i :: 0 <= i < |s| ==> r[i] == ToLower(s[i])
  {
    seq(|s|, i requires 0 <= i < |s| => ToLower(s[i]))
  }

  /** `pattern` occurs in `text` at offset `i`, letters compared without case. */
  predicate OccursAt(pattern: string, text: string, i: nat)
    requires i + |pattern| <= |text|
  {
    Lowered(text[i..i + |pattern|]) == Lowered(pattern)
  }

  /** `text` contains `pattern` as a substring, ignoring ASCII letter case. */
  predicate ContainsIgnoringCase(text: string, pattern: string) {
    exists i: nat :: i + |pattern| <= |text| && OccursAt(pattern, text, i)
  }

  lemma LoweredTwice(s: string)
    ensures Lowered(Lowered(s)) == Lowered(s)
  {
  }

  lemma LoweredSlice(s: string, i: nat, j: nat)
    requires i <= j <= |s|
    ensures Lowered(s)[i..j] == Lowered(s[i..j])
  {
  }

  /** Neither the letter case of the text nor that of the pattern changes the outcome. */
  lemma CaseDoesNotMatter(text: string, pattern: string)
    ensures ContainsIgnoringCase(text, pattern) <==> ContainsIgnoringCase(Lowered(text), Lowered(pattern))
  {
    LoweredTwice(pattern);
    if ContainsIgnoringCase(text, pattern) {
      var i: nat :| i + |pattern| <= |text| && OccursAt(pattern, text, i);
      LoweredSlice(text, i, i + |pattern|);
      LoweredTwice(text[i..i + |pattern|]);
      assert OccursAt(Lowered(pattern), Lowered(text), i);
    }
    if ContainsIgnoringCase(Lowered(text), Lowered(pattern)) {
      var i: nat :| i + |pattern| <= |text| && OccursAt(Lowered(pattern), Lowered(text), i);
      LoweredSlice(text, i, i + |pattern|);
      LoweredTwice(text[i..i + |pattern|]);
      assert OccursAt(pattern, text, i);
    }
  }
}
