/**
 * The few pieces of Kotlin's standard library that the shopping list leans on:
 * the 32-bit `Int`, `CharSequence.isBlank()`, `String.toIntOrNull()` and
 * `Int.toString()`.
 */
module KotlinText {
  import opened Wrappers

  /** Kotlin's `Int`: a 32-bit two's-complement integer. */
  type Int32 = x: int | -0x8000_0000 <= x <= 0x7fff_ffff

  /**
   * `Char.isWhitespace()` on the JVM: `Character.isWhitespace` or
   * `Character.isSpaceChar`, i.e. the ASCII controls TAB..CR and FS..US,
   * and the Unicode space, line and paragraph separators.
   */
  predicate IsWhitespace(c: char) {
    c == ' ' || '\t' <= c <= '\r' || '\U{1C}' <= c <= '\U{1F}'
    || c == '\U{A0}' || c == '\U{1680}' || '\U{2000}' <= c <= '\U{200A}'
    || c == '\U{2028}' || c == '\U{2029}' || c == '\U{202F}' || c == '\U{205F}'
    || c == '\U{3000}'
  }

  /**
   * `isBlank()`: empty, or whitespace only. Its negation, `isNotBlank()`,
   * holds exactly when some character is not whitespace.
   */
  predicate IsBlank(s: string): (b: bool)
    ensures s == [] ==> b
    ensures !b <==> exists i :: 0 <= i < |s| && !IsWhitespace(s[i])
  {
    forall i :: 0 <= i < |s| ==> IsWhitespace(s[i])
  }

  /**
   * Tabs, line breaks and the no-break and ideographic spaces are blank;
   * a visible character, U+0085 (a control that is neither Java whitespace
   * nor a space character) and the zero-width space U+200B are not.
   */
  lemma BlankExamples()
    ensures IsBlank("") && IsBlank(" \t\n\r") && IsBlank("\U{A0}\U{3000}")
    ensures !IsBlank(" a ") && !IsBlank("\U{85}") && !IsBlank("\U{200B}")
  {
    assert " a "[1] == 'a';
    assert "\U{85}"[0] == '\U{85}';
    assert "\U{200B}"[0] == '\U{200B}';
  }

  predicate IsDigit(c: char) {
    '0' <= c <= '9'
  }

  predicate AllDigits(s: string) {
    forall i :: 0 <= i < |s| ==> IsDigit(s[i])
  }

  function DigitChar(d: nat): (c: char)
    requires d < 10
    ensures IsDigit(c) && c as int - '0' as int == d
  {
    ('0' as int + d) as char
  }

  /** The value of a string of decimal digits, most significant first. */
  function DigitsValue(s: string): nat
    requires AllDigits(s)
  {
    if s == [] then 0 else 10 * DigitsValue(s[..|s| - 1]) + (s[|s| - 1] as int - '0' as int)
  }

  /**
   * `String.toIntOrNull()`: an optional '+' or '-', then one or more decimal
   * digits (leading zeros allowed), whose value must fit in an `Int`;
   * anything else is null.
   */
  function ParseInt(s: string): (r: Option<Int32>)
    ensures r.Some? ==> |s| > 0 && AllDigits(if s[0] == '-' || s[0] == '+' then s[1..] else s)
    ensures r.Some? && r.value < 0 ==> s[0] == '-'
    ensures |s| > 0 && AllDigits(s) && DigitsValue(s) <= 0x7fff_ffff ==> r == Some(DigitsValue(s))
    ensures |s| > 0 && !IsDigit(s[0]) && s[0] != '-' && s[0] != '+' ==> r.None?
  {
    if |s| == 0 then None
    else
      var digits := if s[0] == '-' || s[0] == '+' then s[1..] else s;
      if |digits| == 0 || !AllDigits(digits) then None
      else
        var value: int := if s[0] == '-' then -(DigitsValue(digits) as int) else DigitsValue(digits);
        if -0x8000_0000 <= value <= 0x7fff_ffff then Some(value) else None
  }

  /** The decimal digits of `n`, without leading zeros. */
  function NatToDigits(n: nat): (s: string)
    ensures |s| > 0 && AllDigits(s)
    ensures DigitsValue(s) == n
    ensures s[0] == '0' ==> n == 0
  {
    if n < 10 then [DigitChar(n)]
    else
      var s := NatToDigits(n / 10) + [DigitChar(n % 10)];
      assert s[..|s| - 1] == NatToDigits(n / 10);
      s
  }

  /** `Int.toString()`: a '-' for negative values, then the digits of the magnitude. */
  function IntToString(n: Int32): (s: string)
    ensures |s| > 0 && (s[0] == '-' <==> n < 0)
    ensures var digits := if n < 0 then s[1..] else s;
      |digits| > 0 && AllDigits(digits) && (digits[0] == '0' ==> digits == "0")
  {
    if n < 0 then "-" + NatToDigits(-(n as int)) else NatToDigits(n)
  }

  /** Reading back what `toString()` printed gives the same `Int`. */
  lemma ParseIntOfToString(n: Int32)
    ensures ParseInt(IntToString(n)) == Some(n)
  {
  }

  /** Digit strings whose value does not fit in an `Int` parse to null, with either sign. */
  lemma ParseIntRejectsOverflow(n: nat)
    requires n > 0x7fff_ffff
    ensures ParseInt(NatToDigits(n)) == None
    ensures ParseInt("-" + NatToDigits(n)) == (if n == 0x8000_0000 then Some(-0x8000_0000) else None)
  {
  }

  /** Text that is not a signed run of digits parses to null. */
  lemma ParseIntRejectsNonDigits()
    ensures ParseInt("") == None && ParseInt("-") == None && ParseInt("+") == None
    ensures ParseInt("1a") == None && ParseInt(" 1") == None && ParseInt("--1") == None
  {
  }

  /** Zero, negative values, a '+' sign and leading zeros are all accepted. */
  lemma ParseIntAccepts()
    ensures ParseInt("0") == Some(0) && ParseInt("-3") == Some(-3)
    ensures ParseInt("+7") == Some(7) && ParseInt("07") == Some(7)
  {
  }
}
