/**
 * Concrete inputs for the input guard: a tag, a padded word and three
 * e-mail addresses, each proved from the general lemmas of module Security.
 */
module SecurityExamples {
  import opened Security

  lemma TagSplits()
    ensures "<script>" == "<" + "script" + ">"
  {
  }

  lemma OpeningBracketVanishes()
    ensures RemoveBrackets("<") == []
  {
  }

  lemma ClosingBracketVanishes()
    ensures RemoveBrackets(">") == []
  {
  }

  lemma WordHasNoBrackets()
    ensures RemoveBrackets("script") == "script"
  {
    RemoveBracketsIdentity("script");
  }

  lemma RemoveBracketsOfTag()
    ensures RemoveBrackets("<script>") == "script"
  {
    TagSplits();
    OpeningBracketVanishes();
    ClosingBracketVanishes();
    WordHasNoBrackets();
    RemoveBracketsUnwraps("<", "script", ">");
  }

  lemma WordIsSanitized()
    ensures SanitizeInput("script") == "script"
  {
    var w := "script";
    assert !IsWs(w[0]) && !IsWs(w[5]);
    SanitizeFixpoint(w);
  }

  /** sanitizeInput only looks at its input once the brackets are gone. */
  lemma SanitizeSeesStripped(x: string, y: string)
    requires RemoveBrackets(x) == RemoveBrackets(y)
    ensures SanitizeInput(x) == SanitizeInput(y)
  {
  }

  /** `sanitizeInput("<script>")` is `"script"`: both brackets go, nothing to trim or cut. */
  lemma SanitizeStripsTag()
    ensures SanitizeInput("<script>") == "script"
  {
    RemoveBracketsOfTag();
    WordHasNoBrackets();
    SanitizeSeesStripped("<script>", "script");
    WordIsSanitized();
  }

  lemma LeadingBlanksOfPadded()
    ensures LeadingBlanks("  hi  ") == 2
  {
    var s := "  hi  ";
    assert s[1..] == " hi  " && s[1..][1..] == "hi  ";
  }

  lemma TrailingBlanksOfPadded()
    ensures TrailingBlanks("hi  ") == 2
  {
    var s := "hi  ";
    assert s[..3] == "hi " && s[..3][..2] == "hi";
  }

  lemma TrimOfPadded()
    ensures Trim("  hi  ") == "hi"
  {
    LeadingBlanksOfPadded();
    TrailingBlanksOfPadded();
    var s := "  hi  ";
    assert s[2..] == "hi  ";
    assert s[2..4] == "hi";
  }

  /** `sanitizeInput("  hi  ")` is `"hi"`: blanks at both ends are trimmed. */
  lemma SanitizeTrims()
    ensures SanitizeInput("  hi  ") == "hi"
  {
    RemoveBracketsIdentity("  hi  ");
    TrimOfPadded();
  }

  lemma EmailExamples()
    ensures IsValidEmail("a@b.co")
    ensures !IsValidEmail("a@b")
    ensures !IsValidEmail("a" + seq(260, _ => 'x') + "@b.co")
  {
    var e := "a@b.co";
    assert IndexOf(e, '@') == 1;
    assert e[2..][1] == '.';
    assert HasEmailShape(e);
    var f := "a@b";
    assert IndexOf(f, '@') == 1;
    assert !HasInteriorDot(f[2..]);
  }
}
