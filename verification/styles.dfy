/** The converter's single, read-only style sheet: fonts, colours, one rule
    per heading level, the body-text rules and the page geometry. */
module Styles {
  import opened Wrappers

  datatype Fonts = Fonts(regular: string, bold: string, italic: string, code: string)

  datatype Colors = Colors(heading: string, text: string, link: string, quote: string, code: string)

  datatype HeadingRule = HeadingRule(fontSize: real, spacing: real, color: string)

  datatype ParagraphRule = ParagraphRule(fontSize: real, spacing: real, lineHeight: real)

  datatype QuoteRule = QuoteRule(fontSize: real, spacing: real, indent: real)

  datatype CodeRule = CodeRule(fontSize: real, spacing: real)

  datatype Margins = Margins(top: real, bottom: real, left: real, right: real)

  datatype PageRule = PageRule(margin: Margins, padding: real)

  /** `heading[l - 1]` is the rule of heading level `l`. */
  datatype StyleSheet = StyleSheet(
    fonts: Fonts,
    colors: Colors,
    heading: seq<HeadingRule>,
    paragraph: ParagraphRule,
    quote: QuoteRule,
    code: CodeRule,
    page: PageRule)

  const DefaultFonts := Fonts("Helvetica", "Helvetica-Bold", "Helvetica-Oblique", "Courier")

  const DefaultColors := Colors("#2C3E50", "#333333", "#3498DB", "#7F8C8D", "#E74C3C")

  const HeadingColor := "#2C3E50"

  const HeadingRules: seq<HeadingRule> := [
    HeadingRule(20.0, 16.0, HeadingColor),
    HeadingRule(16.0, 12.0, HeadingColor),
    HeadingRule(14.0, 10.0, HeadingColor),
    HeadingRule(12.0, 8.0, HeadingColor),
    HeadingRule(11.0, 8.0, HeadingColor),
    HeadingRule(10.0, 8.0, HeadingColor)]

  const Default: StyleSheet := StyleSheet(
    DefaultFonts,
    DefaultColors,
    HeadingRules,
    ParagraphRule(10.0, 12.0, 1.4),
    QuoteRule(10.0, 12.0, 30.0),
    CodeRule(9.0, 12.0),
    PageRule(Margins(72.0, 72.0, 72.0, 72.0), 36.0))

  /** `styles.heading[level]`: `None` where the object has no such key. */
  function HeadingStyle(level: int): (r: Option<HeadingRule>)
    ensures r.Some? <==> 1 <= level <= 6
    ensures r.Some? ==> 10.0 <= r.value.fontSize <= 20.0 && 8.0 <= r.value.spacing <= 16.0
  {
    if 1 <= level <= |Default.heading| then Some(Default.heading[level - 1]) else None
  }

  /** Where the cursor starts on every page: top margin plus padding. */
  function TopOfPage(): (y: real)
    ensures y == 108.0
  {
    Default.page.margin.top + Default.page.padding
  }

  /** The extra gap between paragraph lines, `fontSize * (lineHeight - 1)`. */
  function ParagraphLineGap(): (g: real)
    ensures g == 4.0
  {
    Default.paragraph.fontSize * (Default.paragraph.lineHeight - 1.0)
  }

  /** Heading font sizes strictly decrease from level 1 to level 6. */
  lemma HeadingSizesDecrease(a: int, b: int)
    requires 1 <= a < b <= 6
    ensures HeadingStyle(a).value.fontSize > HeadingStyle(b).value.fontSize
  {
  }

  /** Heading spacing never grows with the level and never drops below 8. */
  lemma HeadingSpacingNonIncreasing(a: int, b: int)
    requires 1 <= a <= b <= 6
    ensures HeadingStyle(a).value.spacing >= HeadingStyle(b).value.spacing >= 8.0
  {
  }

  /** All four margins are 72 and the padding is 36. */
  lemma PageGeometry()
    ensures Default.page.margin == Margins(72.0, 72.0, 72.0, 72.0)
    ensures Default.page.padding == 36.0
  {
  }

  /** Paragraphs, quotes and code blocks share the same 12-point spacing;
      quotes are indented by 30. */
  lemma BodySpacing()
    ensures Default.paragraph.spacing == Default.quote.spacing == Default.code.spacing == 12.0
    ensures Default.quote.indent == 30.0
  {
  }
}
