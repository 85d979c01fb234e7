/**
 * Python's integer text conversions as the bot uses them: `str(n)` for an
 * integer, `int(s)` for a string, the whitespace class of `isspace()` and
 * the regex escape `\s`, and the narrower class that `int()` strips.
 */
module PyText {
  import opened Wrappers

  /** The characters for which Python's `str.isspace()` holds; `\s` in a `str`
      regex matches exactly these. */
  predicate IsSpace(c: char) {
    || c == ' '
    || ('\t' <= c <= '\r')
    || ('\U{1c}' <= c <= '\U{1f}')
    || c == '\U{85}'
    || c == '\U{a0}'
    || c == '\U{1680}'
    || ('\U{2000}' <= c <= '\U{200a}')
    || c == '\U{2028}'
    || c == '\U{2029}'
    || c == '\U{202f}'
    || c == '\U{205f}'
    || c == '\U{3000}'
  }

  /** The characters `int()` strips from both ends of its argument. Non-ASCII
      whitespace is first turned into a space and then stripped, but of the ASCII
      characters only the space and `\t` to `\r` are stripped: the separators
      U+001C to U+001F, though `isspace()` holds for them, make `int()` fail. */
  predicate IntSpace(c: char) {
    IsSpace(c) && !('\U{1c}' <= c <= '\U{1f}')
  }

  predicate IsDigit(c: char) {
    '0' <= c <= '9'
  }

  predicate AllDigits(s: string) {
    forall i | 0 <= i < |s| :: IsDigit(s[i])
  }

  function DigitChar(d: nat): (c: char)
    requires d < 10
    ensures IsDigit(c) && c as int - '0' as int == d
  {
    (d + '0' as int) as char
  }

  /** The value of a string of decimal digits, most significant first. */
  function DigitsValue(s: string): nat
    requires AllDigits(s)
    decreases |s|
  {
    if |s| == 0 then 0
    else 10 * DigitsValue(s[..|s| - 1]) + (s[|s| - 1] as int - '0' as int)
  }

  /** The decimal digits of `n` as Python's `str` writes them. */
  function NatToDigits(n: nat): (r: string)
    ensures |r| > 0 && AllDigits(r)
    ensures |r| > 1 ==> r[0] != '0'
    decreases n
  {
    if n < 10 then [DigitChar(n)] else NatToDigits(n / 10) + [DigitChar(n % 10)]
  }

  /** Python's `str(n)` for an integer `n`. */
  function IntToString(n: int): string
    decreases if n < 0 then 1 else 0
  {
    if n < 0 then "-" + IntToString(-n) else NatToDigits(n)
  }

  function StripLeft(s: string): string
    decreases |s|
  {
    if |s| > 0 && IntSpace(s[0]) then StripLeft(s[1..]) else s
  }

  function StripRight(s: string): string
    decreases |s|
  {
    if |s| > 0 && IntSpace(s[|s| - 1]) then StripRight(s[..|s| - 1]) else s
  }

  /** What `int()` strips from both ends of its argument: the `IntSpace`
      characters. Unlike `str.strip()`, it keeps U+001C to U+001F. */
  function Strip(s: string): string {
    StripRight(StripLeft(s))
  }

  /** The digit part that `int()` accepts in base 10: digits, with single
      underscores allowed between two digits only. */
  predicate IsDigitGroups(b: string) {
    && |b| > 0
    && IsDigit(b[0])
    && IsDigit(b[|b| - 1])
    && (forall i | 0 <= i < |b| :: IsDigit(b[i]) || b[i] == '_')
    && (forall i | 0 <= i < |b| - 1 :: b[i] == '_' ==> b[i + 1] != '_')
  }

  function DropUnderscores(s: string): (r: string)
    ensures (forall i | 0 <= i < |s| :: IsDigit(s[i]) || s[i] == '_') ==> AllDigits(r)
    ensures '_' !in s ==> r == s
    decreases |s|
  {
    if |s| == 0 then ""
    else (if s[0] == '_' then "" else [s[0]]) + DropUnderscores(s[1..])
  }

  /** Python's `int(s)`: `None` where Python raises `ValueError`. */
  function ParseInt(s: string): Option<int> {
    var t := Strip(s);
    if |t| > 0 && (t[0] == '-' || t[0] == '+') then
      if IsDigitGroups(t[1..]) then
        var v: int := DigitsValue(DropUnderscores(t[1..]));
        Some(if t[0] == '-' then -v else v)
      else None
    else if IsDigitGroups(t) then Some(DigitsValue(DropUnderscores(t)))
    else None
  }

  // ---------------------------------------------------------------------
  // Lemmas
  // ---------------------------------------------------------------------

  /** Reading back the digits of `n` gives `n`. */
  lemma {:induction false} DigitsRoundTrip(n: nat)
    ensures DigitsValue(NatToDigits(n)) == n
    decreases n
  {
    if n >= 10 {
      var r := NatToDigits(n);
      DigitsRoundTrip(n / 10);
      assert r[..|r| - 1] == NatToDigits(n / 10);
    }
  }

  lemma StripUnchanged(s: string)
    requires |s| > 0 && !IntSpace(s[0]) && !IntSpace(s[|s| - 1])
    ensures Strip(s) == s
  {
    assert StripLeft(s) == s;
  }

  /** Stripping on the right keeps a first character that is not stripped. */
  lemma {:induction false} StripRightKeepsHead(s: string)
    requires |s| > 0 && !IntSpace(s[0])
    ensures |StripRight(s)| > 0 && StripRight(s)[0] == s[0]
    decreases |s|
  {
    if IntSpace(s[|s| - 1]) {
      StripRightKeepsHead(s[..|s| - 1]);
    }
  }

  /** `int()` does not strip the ASCII separators U+001C to U+001F: a text that
      starts with one of them is rejected whatever follows. */
  lemma LeadingSeparatorRejected(c: char, d: string)
    requires '\U{1c}' <= c <= '\U{1f}'
    ensures ParseInt([c] + d) == None
  {
    assert StripLeft([c] + d) == [c] + d;
    StripRightKeepsHead([c] + d);
  }

  /** `int()` accepts id texts that are not `str` of their value: a sign, an
      underscore between digits, whitespace around the digits. */
  lemma SignedTextAccepted()
    ensures ParseInt("+12") == Some(12)
  {
    assert "12"[..1] == "1" && "1"[..0] == "";
    assert Strip("+12") == "+12" && "+12"[1..] == "12";
    DigitsAreGroups("12");
  }

  lemma UnderscoreTextAccepted()
    ensures ParseInt("1_2") == Some(12)
  {
    assert "12"[..1] == "1" && "1"[..0] == "";
    assert Strip("1_2") == "1_2";
    assert DropUnderscores("1_2") == "12";
  }

  lemma PaddedTextAccepted()
    ensures ParseInt(" 12\n") == Some(12)
  {
    assert StripLeft(" 12\n") == "12\n";
    assert StripRight("12\n") == "12";
    ParseDigits("12");
    assert "12"[..1] == "1" && "1"[..0] == "";
  }

  lemma DigitsAreGroups(s: string)
    requires |s| > 0 && AllDigits(s)
    ensures IsDigitGroups(s) && DropUnderscores(s) == s
  {
  }

  /** `int()` reads an unsigned run of digits as its value. */
  lemma ParseDigits(d: string)
    requires |d| > 0 && AllDigits(d)
    ensures ParseInt(d) == Some(DigitsValue(d))
  {
    StripUnchanged(d);
    DigitsAreGroups(d);
    assert Strip(d) == d && d[0] != '-' && d[0] != '+';
  }

  /** `int()` reads `-` followed by a run of digits as the negated value. */
  lemma ParseNegatedDigits(t: string)
    requires |t| > 1 && t[0] == '-' && AllDigits(t[1..])
    ensures ParseInt(t) == Some(-(DigitsValue(t[1..]) as int))
  {
    assert IsDigit(t[1..][|t| - 2]);
    StripUnchanged(t);
    DigitsAreGroups(t[1..]);
  }

  /** The text of a negative number is `-` followed by the digits of its magnitude. */
  lemma NegativeText(n: int)
    requires n < 0
    ensures |IntToString(n)| > 1 && IntToString(n)[0] == '-'
    ensures IntToString(n)[1..] == NatToDigits(-n)
  {
  }

  lemma ParseNegativeSign(n: int)
    requires n < 0
    ensures IntToString(n)[1..] == NatToDigits(-n)
    ensures ParseInt(IntToString(n)) == Some(-(DigitsValue(IntToString(n)[1..]) as int))
  {
    NegativeText(n);
    ParseNegatedDigits(IntToString(n));
  }

  lemma ParseNegativeText(n: int)
    requires n < 0
    ensures ParseInt(IntToString(n)) == Some(n)
  {
    ParseNegativeSign(n);
    DigitsRoundTrip(-n);
    assert DigitsValue(IntToString(n)[1..]) == -n;
  }

  lemma ParseNaturalText(n: nat)
    ensures ParseInt(IntToString(n)) == Some(n)
  {
    assert IntToString(n) == NatToDigits(n);
    ParseDigits(NatToDigits(n));
    DigitsRoundTrip(n);
  }

  /** `int(str(n)) == n` for every integer `n`. */
  lemma ParseIntOfIntToString(n: int)
    ensures ParseInt(IntToString(n)) == Some(n)
  {
    if n < 0 {
      ParseNegativeText(n);
    } else {
      ParseNaturalText(n);
    }
  }

  /** `str` is injective on integers: two ids never share a key. */
  lemma IntToStringInjective(a: int, b: int)
    ensures IntToString(a) == IntToString(b) <==> a == b
  {
    if IntToString(a) == IntToString(b) {
      ParseIntOfIntToString(a);
      ParseIntOfIntToString(b);
    }
  }
}
