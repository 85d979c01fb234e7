/**
 * The callback data attached to the moderation buttons: `{action}_{mode}_{id}`,
 * built with an f-string and read back with `split("_", 2)` and `int(...)`.
 */
module CallbackToken {
  import opened Wrappers
  import opened PyText
  import opened PySplit

  datatype Decision = Approve | Reject
  datatype Mode = Manual | Auto

  function DecisionText(d: Decision): string {
    match d
    case Approve => "approve"
    case Reject => "reject"
  }

  function ModeText(m: Mode): string {
    match m
    case Manual => "manual"
    case Auto => "auto"
  }

  /** The button data `f"{action}_{mode}_{user.id}"`. */
  function MakeToken(d: Decision, m: Mode, id: int): string {
    DecisionText(d) + "_" + ModeText(m) + "_" + IntToString(id)
  }

  /** What the decision handler unpacks: the action and mode words as given,
      the raw id text (the key it pops) and that text read as an integer. */
  datatype Token = Token(action: string, mode: string, idText: string, id: int)

  /** `action, mode, user_id_str = data.split("_", 2); user_id = int(user_id_str)`;
      `None` where either step raises `ValueError`. */
  function ParseToken(data: string): Option<Token> {
    var parts := Split(data, '_', 2);
    if |parts| != 3 then None
    else match ParseInt(parts[2])
      case None => None
      case Some(id) => Some(Token(parts[0], parts[1], parts[2], id))
  }

  /** The parser inverts the three-part layout: for words without `_` and an id
      text that `int()` accepts, exactly those pieces come back. */
  lemma ParseTokenOfParts(action: string, mode: string, idText: string, id: int)
    requires '_' !in action && '_' !in mode
    requires ParseInt(idText) == Some(id)
    ensures ParseToken(action + "_" + mode + "_" + idText) == Some(Token(action, mode, idText, id))
  {
    SplitTwoCuts(action, mode, idText, '_');
  }

  /** Every accepted token has that layout: so the two lemmas together say that
      `ParseToken` accepts exactly `a_m_t` with `int(t)` defined. */
  lemma ParsedTokenLayout(data: string)
    requires ParseToken(data).Some?
    ensures var t := ParseToken(data).value;
      && data == t.action + "_" + t.mode + "_" + t.idText
      && '_' !in t.action && '_' !in t.mode
      && ParseInt(t.idText) == Some(t.id)
  {
    SplitThreeParts(data, '_');
  }

  /** An id text that starts with an ASCII separator (U+001C to U+001F) makes
      the whole token malformed, since `int()` does not strip it. */
  lemma SeparatorIdMalformed(action: string, mode: string, c: char, rest: string)
    requires '_' !in action && '_' !in mode
    requires '\U{1c}' <= c <= '\U{1f}'
    ensures ParseToken(action + "_" + mode + "_" + ([c] + rest)) == None
  {
    SplitTwoCuts(action, mode, [c] + rest, '_');
    LeadingSeparatorRejected(c, rest);
  }

  /** Data with fewer than two underscores is malformed. */
  lemma FewUnderscoresMalformed(data: string)
    requires Count(data, '_') < 2
    ensures ParseToken(data) == None
  {
    SplitCount(data, '_', 2);
  }

  lemma WordsWithoutUnderscore(d: Decision, m: Mode)
    ensures '_' !in DecisionText(d) && '_' !in ModeText(m)
  {
  }

  /** Round trip: the token built at submission time parses back to the same
      action, mode and id, and its id text is the pending-store key `str(id)`. */
  lemma TokenRoundTrip(d: Decision, m: Mode, id: int)
    ensures ParseToken(MakeToken(d, m, id)) == Some(Token(DecisionText(d), ModeText(m), IntToString(id), id))
  {
    WordsWithoutUnderscore(d, m);
    ParseIntOfIntToString(id);
    ParseTokenOfParts(DecisionText(d), ModeText(m), IntToString(id), id);
  }

  /** Distinct buttons carry distinct data. */
  lemma MakeTokenInjective(d1: Decision, m1: Mode, id1: int, d2: Decision, m2: Mode, id2: int)
    requires MakeToken(d1, m1, id1) == MakeToken(d2, m2, id2)
    ensures d1 == d2 && m1 == m2 && id1 == id2
  {
    TokenRoundTrip(d1, m1, id1);
    TokenRoundTrip(d2, m2, id2);
    assert Approve != Reject ==> DecisionText(Approve) != DecisionText(Reject);
    assert ModeText(Manual) != ModeText(Auto);
  }
}
