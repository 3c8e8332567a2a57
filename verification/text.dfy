/** String primitives the screens take from JavaScript: `toLowerCase`, `toUpperCase`,
    `includes`, `trim`, `startsWith` and the decimal rendering of a page or document
    number. Strings are sequences of characters; case mapping covers the ASCII and
    Latin-1 letters (which include the Spanish accented letters and the eñe) and the
    two letters outside Latin-1 that some of them upper-case to.
 */
module Text {

  // ---------------------------------------------------------------------------
  // Case mapping

  /** The micro sign µ (U+00B5): a Latin-1 lower-case letter whose upper case is the
      Greek capital mu, which lower-cases to the Greek small mu, not back to µ. */
  const MicroSign: char := 0xB5 as char
  const CapitalMu: char := 0x39C as char
  const SmallMu: char := 0x3BC as char
  /** ÿ (U+00FF), whose upper case Ÿ (U+0178) lies outside Latin-1. */
  const SmallYDiaeresis: char := 0xFF as char
  const CapitalYDiaeresis: char := 0x178 as char

  /** The upper-case letters that lower-case to the letter 32 code points on. */
  predicate IsShiftedUpper(c: char) {
    ('A' <= c <= 'Z') || (0xC0 <= c as int <= 0xDE && c as int != 0xD7)
  }

  predicate IsShiftedLower(c: char) {
    ('a' <= c <= 'z') || (0xE0 <= c as int <= 0xFE && c as int != 0xF7)
  }

  predicate IsUpperLetter(c: char) {
    IsShiftedUpper(c) || c == CapitalYDiaeresis || c == CapitalMu
  }

  predicate IsLowerLetter(c: char) {
    IsShiftedLower(c) || c == SmallYDiaeresis || c == MicroSign || c == SmallMu
  }

  function Lower(c: char): char {
    if IsShiftedUpper(c) then (c as int + 32) as char
    else if c == CapitalYDiaeresis then SmallYDiaeresis
    else if c == CapitalMu then SmallMu
    else c
  }

  function Upper(c: char): char {
    if IsShiftedLower(c) then (c as int - 32) as char
    else if c == SmallYDiaeresis then CapitalYDiaeresis
    else if c == MicroSign || c == SmallMu then CapitalMu
    else c
  }

  /** `String.prototype.toLowerCase`, character by character. */
  function LowerStr(s: string): string {
    seq(|s|, i requires 0 <= i < |s| => Lower(s[i]))
  }

  /** Lower-casing never produces an upper-case letter, and it is the identity on
      everything else than upper-case letters. Lower-casing undoes upper-casing except
      on the micro sign, which comes back as the Greek small mu. */
  lemma LowerCharFacts(c: char)
    ensures !IsUpperLetter(Lower(c)) && !IsLowerLetter(Upper(c))
    ensures Lower(c) != c <==> IsUpperLetter(c)
    ensures Upper(c) != c <==> IsLowerLetter(c)
    ensures Lower(Lower(c)) == Lower(c)
    ensures c != MicroSign ==> Lower(Upper(c)) == Lower(c)
    ensures Lower(Upper(MicroSign)) == SmallMu && Lower(MicroSign) == MicroSign
    ensures Upper(Upper(c)) == Upper(c)
    ensures Upper(Lower(c)) == Upper(c)
    ensures Lower(c) == ' ' <==> c == ' '
    ensures Upper(c) == ' ' <==> c == ' '
    ensures IsSpace(Lower(c)) == IsSpace(c) && IsSpace(Upper(c)) == IsSpace(c)
  {
  }

  lemma LowerStrIdempotent(s: string)
    ensures LowerStr(LowerStr(s)) == LowerStr(s)
    ensures forall i :: 0 <= i < |s| ==> !IsUpperLetter(LowerStr(s)[i])
  {
    forall i | 0 <= i < |s| { LowerCharFacts(s[i]); }
  }

  lemma LowerStrConcat(a: string, b: string)
    ensures LowerStr(a + b) == LowerStr(a) + LowerStr(b)
  {
  }

  /** A string is "lower-case" when lower-casing it changes nothing. */
  predicate IsLowerCase(s: string) {
    LowerStr(s) == s
  }

  // ---------------------------------------------------------------------------
  // Substring search (`String.prototype.includes`)

  ghost predicate OccursAt(hay: string, needle: string, i: int) {
    0 <= i && i + |needle| <= |hay| && hay[i..i + |needle|] == needle
  }

  function Contains(hay: string, needle: string): bool
    decreases |hay|
  {
    if |needle| > |hay| then false
    else if needle <= hay then true
    else Contains(hay[1..], needle)
  }

  /** `Contains` agrees with the textbook definition of a substring occurrence. */
  lemma {:induction false} ContainsIff(hay: string, needle: string)
    ensures Contains(hay, needle) <==> exists i :: OccursAt(hay, needle, i)
    decreases |hay|
  {
    if |needle| > |hay| {
    } else if needle <= hay {
      assert hay[0..|needle|] == needle;
      assert OccursAt(hay, needle, 0);
    } else {
      ContainsIff(hay[1..], needle);
      if Contains(hay[1..], needle) {
        var i :| OccursAt(hay[1..], needle, i);
        assert hay[1..][i..i + |needle|] == hay[i + 1..i + 1 + |needle|];
        assert OccursAt(hay, needle, i + 1);
      } else {
        forall j | OccursAt(hay, needle, j)
          ensures false
        {
          if j != 0 {
            OccursShift(hay, needle, j);
          }
        }
      }
    }
  }

  lemma OccursShift(hay: string, needle: string, j: int)
    requires j >= 1 && OccursAt(hay, needle, j)
    ensures OccursAt(hay[1..], needle, j - 1)
  {
    var tail := hay[1..];
    forall k | 0 <= k < |needle|
      ensures tail[j - 1..j - 1 + |needle|][k] == needle[k]
    {
      assert tail[j - 1 + k] == hay[j + k];
      assert hay[j..j + |needle|][k] == hay[j + k];
    }
  }

  /** Every string contains the empty string, so an empty search term keeps everything. */
  lemma ContainsEmpty(hay: string)
    ensures Contains(hay, "")
  {
  }

  // ---------------------------------------------------------------------------
  // Whitespace and `trim`

  /** The characters ECMAScript's `trim` removes: WhiteSpace and LineTerminator. */
  const Whitespace: set<char> := {
    ' ', '\t', '\n', '\r', '\U{000B}', '\U{000C}', '\U{00A0}', '\U{1680}',
    '\U{2000}', '\U{2001}', '\U{2002}', '\U{2003}', '\U{2004}', '\U{2005}', '\U{2006}', '\U{2007}',
    '\U{2008}', '\U{2009}', '\U{200A}', '\U{2028}', '\U{2029}', '\U{202F}', '\U{205F}', '\U{3000}',
    '\U{FEFF}'
  }

  predicate IsSpace(c: char) {
    c in Whitespace
  }

  predicate AllSpace(s: string) {
    forall k :: 0 <= k < |s| ==> IsSpace(s[k])
  }

  function TrimStart(s: string): (r: string)
    ensures |r| <= |s|
    ensures |r| > 0 ==> !IsSpace(r[0])
  {
    if |s| > 0 && IsSpace(s[0]) then TrimStart(s[1..]) else s
  }

  function TrimEnd(s: string): (r: string)
    ensures r <= s
    ensures |r| > 0 ==> !IsSpace(r[|r| - 1])
  {
    if |s| > 0 && IsSpace(s[|s| - 1]) then TrimEnd(s[..|s| - 1]) else s
  }

  /** `String.prototype.trim`: a piece of the text that neither starts nor ends with
      whitespace. */
  function Trim(s: string): (r: string)
    ensures |r| <= |s|
    ensures |r| > 0 ==> !IsSpace(r[0]) && !IsSpace(r[|r| - 1])
  {
    TrimEnd(TrimStart(s))
  }

  /** `r` is `s` with an all-whitespace prefix of length `i` and an all-whitespace
      suffix removed, and `r` itself neither starts nor ends with whitespace. */
  ghost predicate TrimmedAt(s: string, r: string, i: int) {
    && 0 <= i && i + |r| <= |s|
    && s[i..i + |r|] == r
    && AllSpace(s[..i]) && AllSpace(s[i + |r|..])
    && (|r| > 0 ==> !IsSpace(r[0]) && !IsSpace(r[|r| - 1]))
  }

  /** `TrimStart` drops the `i` leading whitespace characters. */
  lemma {:induction false} TrimStartShape(s: string) returns (i: nat)
    ensures i <= |s| && TrimStart(s) == s[i..] && AllSpace(s[..i])
    ensures i < |s| ==> !IsSpace(s[i])
  {
    if |s| > 0 && IsSpace(s[0]) {
      var i' := TrimStartShape(s[1..]);
      i := i' + 1;
      assert s[1..][i'..] == s[i..];
      forall k | 0 <= k < i ensures IsSpace(s[..i][k]) {
        if k > 0 { assert s[..i][k] == s[1..][..i'][k - 1]; }
      }
    } else {
      i := 0;
      assert s[0..] == s;
    }
  }

  /** `TrimEnd` keeps the first `j` characters and drops whitespace after them. */
  lemma {:induction false} TrimEndShape(s: string) returns (j: nat)
    ensures j <= |s| && TrimEnd(s) == s[..j] && AllSpace(s[j..])
    ensures j > 0 ==> !IsSpace(s[j - 1])
    ensures |s| > 0 && !IsSpace(s[0]) ==> j > 0
  {
    if |s| > 0 && IsSpace(s[|s| - 1]) {
      var t := s[..|s| - 1];
      j := TrimEndShape(t);
      assert t[..j] == s[..j];
      forall k | 0 <= k < |s| - j ensures IsSpace(s[j..][k]) {
        if k < |t| - j { assert s[j..][k] == t[j..][k]; }
      }
    } else {
      j := |s|;
      assert s[..|s|] == s;
    }
  }

  /** Where `trim` cuts: its result starts at `i` in the input. */
  lemma TrimAt(s: string) returns (i: nat)
    ensures TrimmedAt(s, Trim(s), i)
  {
    i := TrimStartShape(s);
    var t := s[i..];
    var j := TrimEndShape(t);
    var r := Trim(s);
    assert r == t[..j] == s[i..i + j];
    assert s[i + j..] == t[j..];
  }

  /** `trim` removes exactly the leading and trailing whitespace. */
  lemma TrimShape(s: string)
    ensures exists i :: TrimmedAt(s, Trim(s), i)
  {
    var i := TrimAt(s);
  }

  /** The test `if (text.trim())`: trimming leaves nothing exactly when every character
      is whitespace (the empty string included). */
  lemma TrimEmptyIff(s: string)
    ensures Trim(s) == "" <==> AllSpace(s)
  {
    var i := TrimAt(s);
    if Trim(s) == "" {
      assert s == s[..i] + s[i..];
      forall k | 0 <= k < |s| ensures IsSpace(s[k]) {
        if k < i { assert s[k] == s[..i][k]; } else { assert s[k] == s[i..][k - i]; }
      }
    } else {
      assert s[i] == Trim(s)[0];
    }
  }

  /** Trimming an already trimmed string changes nothing. */
  lemma TrimIdempotent(s: string)
    ensures Trim(Trim(s)) == Trim(s)
  {
    var r := Trim(s);
    var i := TrimAt(s);
    if |r| > 0 {
      assert TrimStart(r) == r;
      assert TrimEnd(r) == r;
    }
  }

  /** True when the string holds something other than whitespace: JavaScript's
      truthiness of `text.trim()`. */
  predicate HasText(s: string) {
    Trim(s) != ""
  }

  // ---------------------------------------------------------------------------
  // Decimal numerals (template literals such as `Documento ${i + 1}`)

  predicate IsDigit(c: char) {
    '0' <= c <= '9'
  }

  function DigitChar(d: nat): char
    requires d < 10
  {
    ('0' as int + d) as char
  }

  function NatToString(n: nat): string
    decreases n
  {
    if n < 10 then [DigitChar(n)] else NatToString(n / 10) + [DigitChar(n % 10)]
  }

  function ParseDigits(s: string): nat
    requires forall k :: 0 <= k < |s| ==> IsDigit(s[k])
  {
    if |s| == 0 then 0
    else
      assert IsDigit(s[|s| - 1]);
      ParseDigits(s[..|s| - 1]) * 10 + (s[|s| - 1] as int - '0' as int)
  }

  /** The decimal rendering is all digits, never empty, and reads back as the number. */
  lemma {:induction false} NatToStringRoundTrip(n: nat)
    ensures |NatToString(n)| > 0
    ensures forall k :: 0 <= k < |NatToString(n)| ==> IsDigit(NatToString(n)[k])
    ensures ParseDigits(NatToString(n)) == n
    decreases n
  {
    if n >= 10 {
      NatToStringRoundTrip(n / 10);
      var s := NatToString(n);
      assert s[..|s| - 1] == NatToString(n / 10);
    }
  }
}
