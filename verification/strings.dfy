/**
 * The .NET string primitives the client relies on: `string.IsNullOrWhiteSpace`,
 * `string.TrimEnd(char)` and `int.TryParse` with its default number style.
 */
module Strings {
  import opened Wrappers

  /** `char.IsWhiteSpace`: the characters Unicode classifies as White_Space. */
  predicate IsWhiteSpace(c: char) {
    ('\t' <= c <= '\r') || c == ' ' || c == '\U{0085}' || c == '\U{00A0}' || c == '\U{1680}'
    || ('\U{2000}' <= c <= '\U{200A}') || c == '\U{2028}' || c == '\U{2029}'
    || c == '\U{202F}' || c == '\U{205F}' || c == '\U{3000}'
  }

  /** `string.IsNullOrWhiteSpace` on a non-null string: empty or white space only. */
  function IsBlank(s: string): (blank: bool)
    ensures s == [] ==> blank
    ensures !blank <==> exists i :: 0 <= i < |s| && !IsWhiteSpace(s[i])
  {
    forall i :: 0 <= i < |s| ==> IsWhiteSpace(s[i])
  }

  /** `s.TrimEnd(c)`: removes every trailing occurrence of `c`, and nothing else. */
  function TrimEnd(s: string, c: char): (r: string)
    ensures r <= s
    ensures r == [] || r[|r| - 1] != c
    ensures forall i :: |r| <= i < |s| ==> s[i] == c
  {
    if s != [] && s[|s| - 1] == c then TrimEnd(s[..|s| - 1], c) else s
  }

  /** Trimming twice is trimming once: the cache key is stable. */
  lemma TrimEndIdempotent(s: string, c: char)
    ensures TrimEnd(TrimEnd(s, c), c) == TrimEnd(s, c)
  {
  }

  /** Appending the trimmed character does not change the key ("/a/" and "/a" agree). */
  lemma TrimEndAbsorbs(s: string, c: char)
    ensures TrimEnd(s + [c], c) == TrimEnd(s, c)
  {
  }

  // ---------------------------------------------------------------------------
  // int.TryParse(s, out n) with NumberStyles.Integer and invariant-culture signs

  const Int32Min: int := -0x8000_0000
  const Int32Max: int := 0x7FFF_FFFF

  /** The white space NumberStyles.AllowLeadingWhite/AllowTrailingWhite skip. */
  predicate IsNumberWhite(c: char) {
    ('\t' <= c <= '\r') || c == ' '
  }

  predicate IsDigit(c: char) {
    '0' <= c <= '9'
  }

  function StripLeading(s: string): (r: string)
    ensures |r| <= |s|
    ensures r == [] || !IsNumberWhite(r[0])
  {
    if s != [] && IsNumberWhite(s[0]) then StripLeading(s[1..]) else s
  }

  function StripTrailing(s: string): (r: string)
    ensures r <= s
    ensures r == [] || !IsNumberWhite(r[|r| - 1])
  {
    if s != [] && IsNumberWhite(s[|s| - 1]) then StripTrailing(s[..|s| - 1]) else s
  }

  /** The text TryParse looks at: `s` without its leading and trailing number white space. */
  function Stripped(s: string): string {
    StripLeading(StripTrailing(s))
  }

  predicate AllDigits(s: string) {
    forall i :: 0 <= i < |s| ==> IsDigit(s[i])
  }

  /** The value of a run of decimal digits, most significant first. */
  function DigitsValue(s: string): nat
    requires AllDigits(s)
  {
    if s == [] then 0 else DigitsValue(s[..|s| - 1]) * 10 + (s[|s| - 1] as int - '0' as int)
  }

  /**
   * `int.TryParse`: optional surrounding white space, an optional '+' or '-',
   * one or more ASCII digits, and a value that fits 32 bits; None where .NET
   * returns false (and leaves the out parameter 0).
   */
  function ParseInt32(s: string): (r: Option<int>)
    ensures r.Some? ==> Int32Min <= r.value <= Int32Max
  {
    var t := Stripped(s);
    var negative := t != [] && t[0] == '-';
    var digits := if t != [] && (t[0] == '-' || t[0] == '+') then t[1..] else t;
    if digits == [] || !AllDigits(digits) then None
    else
      var v: int := if negative then -(DigitsValue(digits) as int) else DigitsValue(digits);
      if Int32Min <= v <= Int32Max then Some(v) else None
  }

  // ---------------------------------------------------------------------------
  // The decimal rendering a server writes into a header, the partner of ParseInt32

  function DigitChar(d: nat): (c: char)
    requires d < 10
    ensures IsDigit(c) && c as int - '0' as int == d
  {
    ('0' as int + d) as char
  }

  function FormatNat(n: nat): (s: string)
    decreases n
  {
    if n < 10 then [DigitChar(n)] else FormatNat(n / 10) + [DigitChar(n % 10)]
  }

  function FormatInt(n: int): string {
    if n < 0 then "-" + FormatNat(-n) else FormatNat(n)
  }

  lemma {:induction false} FormatNatDigits(n: nat)
    ensures FormatNat(n) != [] && AllDigits(FormatNat(n))
    ensures DigitsValue(FormatNat(n)) == n
    decreases n
  {
    if n >= 10 {
      FormatNatDigits(n / 10);
      var s := FormatNat(n);
      assert s[..|s| - 1] == FormatNat(n / 10);
    }
  }

  /**
   * Parsing what FormatInt rendered gives back the number for every 32-bit value,
   * and refuses every numeral outside the 32-bit range.
   */
  lemma ParseFormat(n: int)
    ensures ParseInt32(FormatInt(n)) == if Int32Min <= n <= Int32Max then Some(n) else None
  {
    var m: nat := if n < 0 then -n else n;
    FormatNatDigits(m);
    var s := FormatInt(n);
    assert !IsNumberWhite(s[|s| - 1]);
    assert StripTrailing(s) == s;
    assert !IsNumberWhite(s[0]);
    assert StripLeading(s) == s;
    if n < 0 {
      assert s[1..] == FormatNat(m);
    } else {
      assert IsDigit(s[0]);
    }
  }

  /**
   * TryParse refuses a string whose stripped text holds a character other than a
   * digit anywhere but in a leading sign position, and one with no digit at all.
   */
  lemma ParseRefusesNonDigit(s: string, i: nat)
    requires i < |Stripped(s)| && !IsDigit(Stripped(s)[i])
    requires i > 0 || (Stripped(s)[0] != '-' && Stripped(s)[0] != '+')
    ensures ParseInt32(s) == None
  {
    var t := Stripped(s);
    if i > 0 && (t[0] == '-' || t[0] == '+') {
      assert t[1..][i - 1] == t[i];
    }
  }

  lemma ParseRefusesEmpty(s: string)
    requires Stripped(s) == [] || Stripped(s) == "-" || Stripped(s) == "+"
    ensures ParseInt32(s) == None
  {
  }
}
