/** The Python text primitives the builder relies on: the character classes of
    `re`'s `\s` and `\w`, `str.lower`, `str.strip`, `str(int)` and `int(str)`.
    Characters are modelled exactly up to U+00FF (Latin-1); code points above
    that are neither word characters nor whitespace here. */
module PyText {
  import opened Wrappers

  /** `\s` in a `str` pattern, which is also what `str.isspace` and `str.strip` use. */
  predicate IsSpace(c: char) {
    c == ' ' || ('\t' <= c <= '\r') || ('\U{1C}' <= c <= '\U{1F}') || c == '\U{85}' || c == '\U{A0}'
  }

  predicate IsAsciiDigit(c: char) {
    '0' <= c <= '9'
  }

  /** `\w` in a `str` pattern: `str.isalnum()` or the underscore. */
  predicate IsWordChar(c: char) {
    || ('a' <= c <= 'z') || ('A' <= c <= 'Z') || IsAsciiDigit(c) || c == '_'
    || c == '\U{AA}' || c == '\U{B2}' || c == '\U{B3}' || c == '\U{B5}' || c == '\U{B9}' || c == '\U{BA}'
    || ('\U{BC}' <= c <= '\U{BE}')
    || ('\U{C0}' <= c <= '\U{D6}') || ('\U{D8}' <= c <= '\U{F6}') || ('\U{F8}' <= c <= '\U{FF}')
  }

  predicate IsUpper(c: char) {
    ('A' <= c <= 'Z') || ('\U{C0}' <= c <= '\U{D6}') || ('\U{D8}' <= c <= '\U{DE}')
  }

  /** `str.lower` on one character. */
  function Lower(c: char): char {
    if IsUpper(c) then (c as int + 32) as char else c
  }

  /** Lowering is idempotent and keeps every character in its class. */
  lemma LowerFacts(c: char)
    ensures Lower(Lower(c)) == Lower(c)
    ensures IsWordChar(Lower(c)) == IsWordChar(c)
    ensures IsSpace(Lower(c)) == IsSpace(c)
    ensures (Lower(c) == '-') == (c == '-')
    ensures (Lower(c) == '_') == (c == '_')
  {
  }

  /** `str.lower` on a string. */
  function LowerText(s: string): string {
    seq(|s|, i requires 0 <= i < |s| => Lower(s[i]))
  }

  /** Lowering a string twice is lowering it once. */
  lemma {:induction false} LowerTextIdempotent(s: string)
    ensures LowerText(LowerText(s)) == LowerText(s)
  {
    forall i | 0 <= i < |s| ensures LowerText(LowerText(s))[i] == LowerText(s)[i] {
      LowerFacts(s[i]);
    }
  }

  function StripLeft(s: string): string {
    if s != [] && IsSpace(s[0]) then StripLeft(s[1..]) else s
  }

  function StripRight(s: string): string {
    if s != [] && IsSpace(s[|s| - 1]) then StripRight(s[..|s| - 1]) else s
  }

  /** `str.strip()` with no argument. */
  function Strip(s: string): string {
    StripRight(StripLeft(s))
  }

  /** Stripping keeps a contiguous piece of the input and removes whitespace only. */
  lemma {:induction false} StripIsInfix(s: string)
    ensures exists i, j :: 0 <= i <= j <= |s| && Strip(s) == s[i..j]
  {
    var l := StripLeftSuffix(s);
    var r := StripRightPrefix(StripLeft(s));
    assert Strip(s) == s[l..l + r];
  }

  lemma {:induction false} StripLeftSuffix(s: string) returns (k: nat)
    ensures k <= |s| && StripLeft(s) == s[k..]
    ensures forall j :: 0 <= j < k ==> IsSpace(s[j])
    decreases |s|
  {
    if s != [] && IsSpace(s[0]) {
      var k' := StripLeftSuffix(s[1..]);
      k := k' + 1;
      assert s[1..][k'..] == s[k..];
      assert forall j :: 1 <= j < k ==> s[j] == s[1..][j - 1];
    } else {
      k := 0;
    }
  }

  lemma {:induction false} StripRightPrefix(s: string) returns (k: nat)
    ensures k <= |s| && StripRight(s) == s[..k]
    ensures forall j :: k <= j < |s| ==> IsSpace(s[j])
    decreases |s|
  {
    if s != [] && IsSpace(s[|s| - 1]) {
      k := StripRightPrefix(s[..|s| - 1]);
      assert s[..|s| - 1][..k] == s[..k];
    } else {
      k := |s|;
    }
  }

  /** A string with no whitespace at either end is left alone by `strip`. */
  lemma StripUnpadded(s: string)
    requires s == [] || (!IsSpace(s[0]) && !IsSpace(s[|s| - 1]))
    ensures Strip(s) == s
  {
  }

  function DigitChar(d: nat): char
    requires d < 10
  {
    ('0' as int + d) as char
  }

  function DigitValue(c: char): nat
    requires IsAsciiDigit(c)
  {
    c as int - '0' as int
  }

  predicate AllDigits(s: string) {
    forall i :: 0 <= i < |s| ==> IsAsciiDigit(s[i])
  }

  /** `str(n)` for a non-negative integer: its decimal digits, no leading zero. */
  function NatText(n: nat): (r: string)
    ensures r != [] && AllDigits(r)
  {
    if n < 10 then [DigitChar(n)] else NatText(n / 10) + [DigitChar(n % 10)]
  }

  /** `str(n)` for any integer. */
  function DecimalText(n: int): string {
    if n < 0 then "-" + NatText(-n) else NatText(n)
  }

  /** The number a string of decimal digits denotes. */
  function DigitsValue(s: string): nat
    requires AllDigits(s)
  {
    if s == [] then 0 else DigitsValue(s[..|s| - 1]) * 10 + DigitValue(s[|s| - 1])
  }

  /** `int(s)` for a string: surrounding whitespace, an optional sign, then at
      least one decimal digit; anything else raises `ValueError` (here `None`). */
  function ParseInt(s: string): Option<int> {
    var t := Strip(s);
    if t == [] then None
    else if t[0] == '+' || t[0] == '-' then
      if |t| > 1 && AllDigits(t[1..]) then
        Some(if t[0] == '-' then -(DigitsValue(t[1..]) as int) else DigitsValue(t[1..]))
      else None
    else if AllDigits(t) then Some(DigitsValue(t))
    else None
  }

  lemma {:induction false} DigitsOfNatText(n: nat)
    ensures DigitsValue(NatText(n)) == n
  {
    if n >= 10 {
      DigitsOfNatText(n / 10);
      var t := NatText(n);
      assert t[..|t| - 1] == NatText(n / 10);
    }
  }

  /** `int(str(n)) == n`: parsing inverts printing. */
  lemma ParseIntDecimalText(n: int)
    ensures ParseInt(DecimalText(n)) == Some(n)
  {
    if n < 0 {
      DigitsOfNatText(-n);
      ParseIntNegative(NatText(-n));
    } else {
      DigitsOfNatText(n);
      ParseIntDigits(NatText(n));
    }
  }

  lemma ParseIntDigits(d: string)
    requires d != [] && AllDigits(d)
    ensures ParseInt(d) == Some(DigitsValue(d))
  {
    StripUnpadded(d);
  }

  lemma ParseIntNegative(d: string)
    requires d != [] && AllDigits(d)
    ensures ParseInt("-" + d) == Some(-(DigitsValue(d) as int))
  {
    var t := "-" + d;
    assert t[0] == '-' && t[|t| - 1] == d[|d| - 1];
    StripUnpadded(t);
    assert t[1..] == d;
  }

  /** `int()` accepts only digits, signs and whitespace: a string holding any
      other character (a letter, a decimal point) raises. */
  lemma ParseIntCharset(s: string)
    ensures ParseInt(s).Some? ==>
      forall i :: 0 <= i < |s| ==> IsAsciiDigit(s[i]) || IsSpace(s[i]) || s[i] == '+' || s[i] == '-'
  {
    if ParseInt(s).None? {
      return;
    }
    StripIsInfix(s);
    assert forall i :: 0 <= i < |Strip(s)| ==> IsAsciiDigit(Strip(s)[i]) || Strip(s)[i] == '+' || Strip(s)[i] == '-' by {
      var t := Strip(s);
      if t[0] == '+' || t[0] == '-' {
        assert forall i :: 1 <= i < |t| ==> t[i] == t[1..][i - 1];
      }
    }
    forall i | 0 <= i < |s| && !IsSpace(s[i])
      ensures IsAsciiDigit(s[i]) || s[i] == '+' || s[i] == '-'
    {
      StripKeepsNonSpace(s, i);
    }
  }

  /** Every non-whitespace character of `s` survives `strip`. */
  lemma StripKeepsNonSpace(s: string, i: nat)
    requires i < |s| && !IsSpace(s[i])
    ensures exists k {:trigger Strip(s)[k]} :: 0 <= k < |Strip(s)| && Strip(s)[k] == s[i]
  {
    var l := StripLeftSuffix(s);
    var r := StripRightPrefix(StripLeft(s));
    assert l <= i;
    assert StripLeft(s)[i - l] == s[i];
    assert i - l < r;
    assert Strip(s)[i - l] == s[i];
  }
}
