/** The per-node mapping functions `heading`, `paragraph`, `blockquote` and
    `code`. The heading identifier is built from the clock and a random
    number in the source; here it is a parameter. */
module ElementExtractors {
  import opened Wrappers
  import opened JsString
  import opened Elements
  import Styles

  const LanguagePrefix := "language-"

  /** The level standing for `NaN`, what `parseInt` gives for a missing
      or non-digit character. No heading style exists for it. */
  const NotANumber := -1

  /** `parseInt` of the single character at position 1 of a tag name. */
  function ParseLevel(tagName: string): (level: int)
    ensures |tagName| >= 2 && IsDigit(tagName[1]) ==>
      0 <= level <= 9 && level == ParseDecimal(tagName[1..2])
    ensures !(|tagName| >= 2 && IsDigit(tagName[1])) ==> level == NotANumber
    ensures Styles.HeadingStyle(level).Some? <==> |tagName| >= 2 && '1' <= tagName[1] <= '6'
  {
    if |tagName| >= 2 && IsDigit(tagName[1]) then DigitValue(tagName[1]) else NotANumber
  }

  /** `heading`: the level is `parseInt` of the tag name's second
      character; the identifier is supplied by the caller. */
  function ExtractHeading(node: Node, id: string): (e: Element)
    ensures e.Heading? && e.id == id && e.level == ParseLevel(node.tagName)
    ensures IsTrimOf(node.textContent, e.content)
  {
    Heading(ParseLevel(node.tagName), Trim(node.textContent), id)
  }

  /** `paragraph`: kept whatever its text, unlike the page-wide classifier. */
  function ExtractParagraph(node: Node): (e: Element)
    ensures e.Paragraph? && IsTrimOf(node.textContent, e.content)
  {
    Paragraph(Trim(node.textContent))
  }

  /** `blockquote`: a quote element. */
  function ExtractBlockquote(node: Node): (e: Element)
    ensures e.Quote? && IsTrimOf(node.textContent, e.content)
  {
    Quote(Trim(node.textContent))
  }

  /** `code`: the language is the class name with the first `language-`
      removed; a class name without it is kept as it is. */
  function ExtractCode(node: Node): (e: Element)
    ensures e.Code? && IsTrimOf(node.textContent, e.content) && e.language.Some?
    ensures (forall i: nat :: !OccursAt(node.className, LanguagePrefix, i)) ==>
      e.language.value == node.className
    ensures forall i: nat :: FirstOccurrence(node.className, LanguagePrefix, i) ==>
      e.language.value == node.className[..i] + node.className[i + |LanguagePrefix|..]
  {
    var language := ReplaceFirst(node.className, LanguagePrefix, "");
    assert forall i: nat :: FirstOccurrence(node.className, LanguagePrefix, i) ==>
      language == node.className[..i] + node.className[i + |LanguagePrefix|..] by {
      forall i: nat | FirstOccurrence(node.className, LanguagePrefix, i)
        ensures language == node.className[..i] + node.className[i + |LanguagePrefix|..]
      {
        assert node.className[..i] + "" == node.className[..i];
      }
    }
    Code(Trim(node.textContent), Some(language))
  }

  /** Only the first `language-` goes: a doubled prefix leaves one behind. */
  lemma DoubledPrefixKeepsOne()
    ensures ExtractCode(Node("pre", "x", "language-language-x")).language == Some("language-x")
  {
    var c := "language-language-x";
    assert c[0..9] == LanguagePrefix;
    assert FirstOccurrence(c, LanguagePrefix, 0);
    assert c[..0] + c[9..] == "language-x";
  }

  /** A heading tag `H1` … `H6` or `h1` … `h6` yields that level. */
  lemma HeadingLevelFromTag(node: Node, id: string)
    requires |node.tagName| == 2 && (node.tagName[0] == 'H' || node.tagName[0] == 'h')
    requires '1' <= node.tagName[1] <= '6'
    ensures 1 <= ExtractHeading(node, id).level <= 6
    ensures ExtractHeading(node, id).level == node.tagName[1] as int - '0' as int
  {
  }
}
