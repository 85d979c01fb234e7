/** The full-name rule of the payment conversation: `re.fullmatch(r'[A-Za-z\s]+', name)`. */
module NameRule {
  import opened PyText

  /** One character of the class `[A-Za-z\s]`: an ASCII letter or Python whitespace. */
  predicate InNameClass(c: char) {
    ('A' <= c <= 'Z') || ('a' <= c <= 'z') || IsSpace(c)
  }

  /** The regex matcher's view: one class character, then `+` repeats on the rest,
      and the whole input must be consumed. */
  function FullMatchName(s: string): bool
    decreases |s|
  {
    |s| > 0 && InNameClass(s[0]) && (|s| == 1 || FullMatchName(s[1..]))
  }

  /** A name is accepted exactly when it is non-empty and every character is a
      letter or whitespace. */
  lemma {:induction false} FullMatchNameChars(s: string)
    ensures FullMatchName(s) <==> |s| > 0 && forall i | 0 <= i < |s| :: InNameClass(s[i])
    decreases |s|
  {
    if |s| > 1 {
      FullMatchNameChars(s[1..]);
      assert forall i | 1 <= i < |s| :: s[i] == s[1..][i - 1];
    }
  }

  /** Inserting a rejected character (a digit, `'`, `-`, `.`) makes any name invalid. */
  lemma RejectsForeignChar(a: string, c: char, b: string)
    requires !InNameClass(c)
    ensures !FullMatchName(a + [c] + b)
  {
    var s := a + [c] + b;
    FullMatchNameChars(s);
    assert s[|a|] == c;
  }
}
