# blog-pdf-converter: layout engine, file namer and element classifier in Dafny

This project models the three pure cores of blog-pdf-converter, a tool that
turns one web page into a paginated PDF:

- **The PDF generator's pagination and cursor bookkeeping** (`PDFGenerator`):
  - A fresh generator is on page 1 with `currentY` at the top margin plus
    the padding.
  - For each element in turn, `generateContent` estimates its height
    (`calculateContentHeight`). If the cursor plus the estimate is
    strictly past the bottom margin, it adds a page.
  - It then draws the element with `addHeading`, `addParagraph`,
    `addQuote` or `addCode`, each of which advances `currentY` by its own
    amount. An unsupported type is logged as a warning.
  - The style constants come from the read-only `styles` object.
- **Output file naming** (`FileNamer`):
  - `sanitizeTitle` defaults the title, lower-cases it, maps every
    non-alphanumeric character to `_`, collapses runs of `_`, and keeps
    at most 200 characters.
  - `generateFileName` tries `base.pdf`, `base_1.pdf`, `base_2.pdf`, …
    until it finds a name that is not taken.
- **Node-to-element classification:**
  - The `nodes.forEach` callback run inside the browser on the nodes that
    match `h1, h2, h3, h4, h5, h6, p, pre, blockquote`.
  - The separate per-node mappers `heading`, `paragraph`, `blockquote`
    and `code`.

Modules, one per file:

| file | module | what it holds |
|---|---|---|
| `wrappers.dfy` | `Wrappers` | `Option` and `Result` |
| `jsstring.dfy` | `JsString` | the JavaScript string operations used: `trim`, ASCII `toLowerCase`, number rendering, `parseInt` of digits, first-occurrence `replace` |
| `styles.dfy` | `Styles` | the style sheet as an immutable value |
| `elements.dfy` | `Elements` | the element union the generator consumes, and the DOM node record |
| `element_extractors.dfy` | `ElementExtractors` | the four per-node mappers |
| `content_extractor.dfy` | `ContentExtractor` | selection and the `forEach` classifier |
| `pdf_generator.dfy` | `PdfGenerator` | estimates, the drawing functions, the page-break step and the fold over the elements |
| `file_namer.dfy` | `FileNamer` | `sanitizeTitle` and the candidate loop of `generateFileName` |

How the generator is modelled:

- PDFKit's `heightOfString` is a function parameter `measure`. It receives
  the face the document is currently set to (font and size), the text,
  and the `width` and `lineGap` options. A measurement depends on the
  current font, and the code measures in different faces at different
  points:
  - `calculateContentHeight` always measures in the face left by the
    previous element.
  - `addCode` measures its box height before setting the code font, so
    also in the previous element's face.
  - `addParagraph` and `addQuote` measure after setting their own font.
- Lemmas that need measurements to be non-negative say so with
  `NonNegative(measure)`.
- The page size is a parameter. `Letter` is PDFKit's default page.
- The drawing calls are recorded in an action log: `AddPage`, `SetFont`,
  `DrawText`, `FillRect`, and `Warn` for the logger's warning.
- The state is `(pageNumber, currentY, face, log)`.
- `generateContent` is a fold (`Run`) over the elements.
- The one thing the loop can throw is a heading whose level has no style,
  because `styles.heading[level]` is `undefined`. This becomes
  `Err(MissingHeadingStyle(index, level))`.

## Model

| member | source | states |
|---|---|---|
| Styles.HeadingStyle | src/config/pdfStyles.js:32-39 | a heading rule exists exactly for levels 1 to 6; every rule's font size lies in 10..20 and its spacing in 8..16 |
| Styles.HeadingSizesDecrease | src/config/pdfStyles.js:33-38 | heading font sizes strictly decrease from level 1 to level 6 |
| Styles.HeadingSpacingNonIncreasing | src/config/pdfStyles.js:33-38 | heading spacing never grows with the level and is never below 8 |
| Styles.PageGeometry | src/config/pdfStyles.js:56-64 | all four margins are 72 and the padding is 36 |
| Styles.TopOfPage | src/config/pdfStyles.js:56-64 | the top-of-page cursor, top margin plus padding, is 108 |
| Styles.ParagraphLineGap | src/config/pdfStyles.js:41-45 | the paragraph line gap `fontSize * (lineHeight - 1)` is 4 |
| Styles.BodySpacing | src/config/pdfStyles.js:40-55 | paragraph, quote and code blocks all have spacing 12, and the quote indent is 30 |
| JsString.Trim | src/extractors/contentExtractor.js:29 | the result is the input with a whitespace-only prefix and suffix cut off, and nothing else removed; neither of its ends is whitespace |
| JsString.TrimUnique | src/extractors/contentExtractor.js:29 | whatever meets that description is exactly what `trim` returns, and trimming twice equals trimming once |
| JsString.ToLower | src/extractors/contentExtractor.js:23 | `toLowerCase` keeps the length, leaves no ASCII upper-case letter, turns each one into the same letter in lower case, and leaves every other character in place |
| JsString.ToLowerIdempotent | src/utils/fileNamer.js:77 | lower-casing twice is lower-casing once |
| JsString.ToLowerAppend | src/utils/fileNamer.js:77 | lower-casing works character by character: the lower case of a concatenation is the concatenation of the lower cases |
| JsString.NumberToString | src/extractors/contentExtractor.js:30 | a number is rendered as a non-empty digit string without a leading zero |
| JsString.ParseNumberToString | src/extractors/contentExtractor.js:28-30 | parsing the rendering of `n` gives back `n` |
| JsString.NumberToStringInjective | src/extractors/contentExtractor.js:30 | distinct numbers render as distinct strings |
| JsString.IndexOf | src/extractors/elementExtractors.js:56 | the search finds the first occurrence at or after the start position, or reports that there is none |
| JsString.ReplaceFirst | src/extractors/elementExtractors.js:56 | a string pattern replaces only its first occurrence; the string is unchanged when the pattern does not occur |
| ElementExtractors.ParseLevel | src/extractors/elementExtractors.js:23 | a digit at position 1 gives its value; a missing or non-digit character gives NaN; a style exists exactly for the characters 1 to 6 |
| ElementExtractors.ExtractHeading | src/extractors/elementExtractors.js:21-26 | a heading whose level is `parseInt` of the tag's second character and whose content is the trimmed text, with the supplied identifier |
| ElementExtractors.HeadingLevelFromTag | src/extractors/elementExtractors.js:23 | tags `H1`…`H6` or `h1`…`h6` yield levels 1 to 6, the digit's value |
| ElementExtractors.ExtractParagraph | src/extractors/elementExtractors.js:33-36 | a paragraph whose content is the trimmed text, kept even when empty |
| ElementExtractors.ExtractBlockquote | src/extractors/elementExtractors.js:43-46 | a quote whose content is the trimmed text |
| ElementExtractors.ExtractCode | src/extractors/elementExtractors.js:53-57 | a code block whose content is the trimmed text and whose language is the class name with the first `language-` removed, or the class name unchanged when it has none |
| ElementExtractors.DoubledPrefixKeepsOne | src/extractors/elementExtractors.js:56 | the class name `language-language-x` gives the language `language-x` |
| ContentExtractor.SelectNodes | src/extractors/contentExtractor.js:20 | the selection holds exactly the nodes whose lower-cased tag is one of the nine selector tags |
| ContentExtractor.SelectOne | src/extractors/contentExtractor.js:20 | a lone node is selected exactly when its lower-cased tag is a selector tag |
| ContentExtractor.SelectNodesInOrder | src/extractors/contentExtractor.js:20 | the selection keeps document order: the selection of a document split in two is the first part's selection followed by the second's |
| ContentExtractor.PatternOnSelectedTags | src/extractors/contentExtractor.js:25 | on the selector's tags, the unanchored `/h[1-6]/` matches exactly `h1`…`h6` |
| ContentExtractor.ClassifyNode | src/extractors/contentExtractor.js:22-51 | the callback yields nothing exactly for a blank paragraph; otherwise it yields one element of the tag's kind with the trimmed text. A heading has level 1..6 and id `heading-<index>`. Code has no language, and nothing is of an unsupported type |
| ContentExtractor.Classify | src/extractors/contentExtractor.js:22-51 | the loop produces one element per kept node and at most one per selected node |
| ContentExtractor.ClassifyFollowsKept | src/extractors/contentExtractor.js:22-51 | output element `k` is what the callback made of the selected node at position `KeptIndices(nodes)[k]`, called with that position as its index |
| ContentExtractor.KeptIndices | src/extractors/contentExtractor.js:22-51 | the positions of the nodes that yield an element are in range and strictly increasing, so the output keeps document order |
| ContentExtractor.KeptIffNotBlank | src/extractors/contentExtractor.js:32-39 | a selected node is dropped exactly when it is a paragraph whose trimmed text is empty |
| ContentExtractor.OnlyBlankParagraphsDropped | src/extractors/contentExtractor.js:22-51 | output length is the number of selected nodes minus the number of blank paragraphs |
| ContentExtractor.ContentIsTrimmed | src/extractors/contentExtractor.js:25-49 | every element's content is the trimmed text of its node, with no whitespace at either end |
| ContentExtractor.HeadingIdsDistinct | src/extractors/contentExtractor.js:30 | two distinct output headings never share an id, because the index counts all selected nodes |
| ContentExtractor.ExtractedHeadingLevels | src/extractors/contentExtractor.js:20-51 | every extracted heading has a level from 1 to 6, and no element is of an unsupported type |
| ContentExtractor.ExtractElements | src/extractors/contentExtractor.js:20-51 | extraction yields at most one element per selected node |
| PdfGenerator.Init | src/generators/pdfGenerator.js:21-28 | a fresh generator is on page 1 with the cursor at 108, nothing drawn |
| PdfGenerator.Estimate | src/generators/pdfGenerator.js:92-113 | an estimate exists exactly when the element has a style. A paragraph or code block is estimated at its height measured in the current face at the printable width (page width minus 144) plus 12, and a quote at the width minus 174 plus 12. A heading is estimated at 15 to 30, an unsupported type at 0, and no estimate is negative when measurements are not |
| PdfGenerator.EstimatesByKind | src/generators/pdfGenerator.js:96-110 | a heading's estimate is `1.5 * fontSize` whatever the page and measurement; code is estimated like a paragraph; a quote is estimated like a paragraph on a page narrower by the indent |
| PdfGenerator.Advance | src/generators/pdfGenerator.js:131-210 | a heading advances the cursor by exactly its font size plus its spacing (18 to 36), an unsupported element by 0, and no element moves it up when measurements are non-negative; `Draw` moves the cursor by exactly this amount |
| PdfGenerator.AddHeading | src/generators/pdfGenerator.js:120-132 | makes exactly two calls: first it sets Helvetica-Bold at the level's font size and colour, then it draws the text with no options; adds no page; the cursor advances by exactly the level's font size plus its spacing, which is 18 to 36 |
| PdfGenerator.AddParagraph | src/generators/pdfGenerator.js:144-159 | makes exactly two calls: first it sets 10-point Helvetica in `#333333`, then it draws the text with line gap 4 and paragraph gap 12. It then advances by the text's height measured in that face with line gap 4, plus 12 |
| PdfGenerator.AddQuote | src/generators/pdfGenerator.js:166-179 | makes exactly two calls: first it sets 10-point Helvetica-Oblique in `#7F8C8D`, then it draws the text with first-line indent 30. It then advances by the text's height measured in that face, plus 12 |
| PdfGenerator.AddCode | src/generators/pdfGenerator.js:186-211 | makes exactly three calls: it fills the box, sets 9-point Courier in `#E74C3C`, then draws the text with no options. The box sits at the left margin and the current cursor, spans the printable width, and is as tall as the text measured once in the previous face plus 10. The cursor advances by that same height plus 12 |
| PdfGenerator.WarnUnsupported | src/generators/pdfGenerator.js:79-80 | an unsupported type adds exactly one call to the log, a warning naming the type, and leaves the cursor and face unchanged |
| PdfGenerator.Draw | src/generators/pdfGenerator.js:66-81 | drawing an element never adds a page, keeps the old log, and moves the cursor by that kind's advance |
| PdfGenerator.Step | src/generators/pdfGenerator.js:58-81 | one turn fails exactly on a heading without a style, reporting its index and level; otherwise the page number does not decrease |
| PdfGenerator.Overflows | src/generators/pdfGenerator.js:60 | the break test is strict: cursor plus estimate above the page height minus the bottom margin (see `ExactFitStaysOnPage`) |
| PdfGenerator.StepBreaksIffOverflow | src/generators/pdfGenerator.js:60-64 | a page is added before an element exactly when cursor plus estimate is strictly past the bottom bound; then the page number grows by exactly one and the element is drawn from 108; otherwise the page number is unchanged |
| PdfGenerator.ExactFitStaysOnPage | src/generators/pdfGenerator.js:60 | an element that exactly fills the remaining room stays on the current page |
| PdfGenerator.Run | src/generators/pdfGenerator.js:58-82 | with a step that fails exactly on headings without a style, the loop completes exactly when no element is such a heading; the page, log and cursor facts of the loop are stated by `RunCountsPages`, `RunDrawsContents`, `RunWarnsUnsupported` and `RunStaysBelowTop` |
| PdfGenerator.GenerateContent | src/generators/pdfGenerator.js:57-83 | `generateContent` completes exactly when every heading's level is 1 to 6; otherwise it stops at the first heading without a style and reports its position and level |
| PdfGenerator.RunCountsPages | src/generators/pdfGenerator.js:58-64 | over any run, pages added equal page-number growth, at most one per element, and the log only grows |
| PdfGenerator.PageNumberCountsPages | src/generators/pdfGenerator.js:58-64 | the final page number is 1 plus the pages `generateContent` adds itself, and lies between 1 and 1 plus the number of elements |
| PdfGenerator.DrawsInInputOrder | src/generators/pdfGenerator.js:58-83 | the drawn texts are the contents of the supported elements in input order; the warnings are the unsupported types in input order |
| PdfGenerator.CursorMonotoneWithinPage | src/generators/pdfGenerator.js:58-64 | with non-negative measurements the cursor never moves back within a page, and after a break it is at or below the top |
| PdfGenerator.CursorBelowTop | src/generators/pdfGenerator.js:57-83 | with non-negative measurements the cursor never rises above 108 |
| PdfGenerator.EmptyContentIsOnePage | src/generators/pdfGenerator.js:21-28 | no elements leaves the first page and an empty log |
| PdfGenerator.HeadingAdvanceExceedsEstimate | src/generators/pdfGenerator.js:98-131 | a heading advances the cursor by exactly its spacing less half its font size more than its estimate: 2 to 6 points, 2 at level 4 and 6 at level 1 |
| PdfGenerator.HeadingCanEndBelowBottom | src/generators/pdfGenerator.js:57-83 | on a Letter page, an h1 that exactly fits by estimate leaves the cursor at 726, past the bottom bound 720; a following unsupported element then adds page 2 although it draws nothing |
| FileNamer.CollapseUnderscores | src/utils/fileNamer.js:79 | no doubled underscore remains; the first character and all non-underscore characters are kept in order, a non-empty string stays non-empty, and the result is never longer |
| FileNamer.CollapseDropsDoubled | src/utils/fileNamer.js:79 | collapsing equals the reference filter that removes exactly the underscores followed by another underscore, so each run of `_` leaves exactly one |
| FileNamer.CollapseKeepsCollapsed | src/utils/fileNamer.js:79 | a string without doubled underscores is left unchanged |
| FileNamer.Sanitize | src/utils/fileNamer.js:75-81 | the result has 1 to 200 characters, all in `[a-z0-9_]`, with no two consecutive underscores |
| FileNamer.SanitizeJoinsWords | src/utils/fileNamer.js:75-81 | two runs of letters and digits separated by a non-empty run of other characters give the two runs lower-cased, joined by one `_`, when that fits in 200 characters |
| FileNamer.MissingTitleIsWebpage | src/utils/fileNamer.js:76 | an absent or empty title gives `webpage` |
| FileNamer.ReplaceNonAlnum | src/utils/fileNamer.js:78 | letters and digits stay in place, every other character becomes one `_`, and nothing else is in the result |
| FileNamer.ReplaceKeepsAlnums | src/utils/fileNamer.js:78 | removing the underscores from the replacement leaves exactly the letters and digits of the input, in order |
| FileNamer.Truncate | src/utils/fileNamer.js:80 | the result is the prefix of the input of length at most 200: the whole input when it is short enough |
| FileNamer.SanitizeFixesNames | src/utils/fileNamer.js:75-81 | a valid name sanitizes to itself |
| FileNamer.SanitizeIdempotent | src/utils/fileNamer.js:75-81 | sanitizing twice equals sanitizing once |
| FileNamer.SanitizeKeepsAlnums | src/utils/fileNamer.js:77-80 | the lower-cased letters and digits of the title survive in order: all of them for titles of at most 200 characters, a prefix of them otherwise |
| FileNamer.Candidate | src/utils/fileNamer.js:39-41 | attempt `k` ends in `.pdf` and starts with the base name |
| FileNamer.CandidateInjective | src/utils/fileNamer.js:39-41 | distinct attempts never produce the same name |
| FileNamer.TakenBound | src/utils/fileNamer.js:38-43 | if the first `k` candidates are all taken, the directory holds at least `k` names |
| FileNamer.GenerateFileName | src/utils/fileNamer.js:30-51 | the returned name is the least candidate not in the directory, every earlier candidate is taken, it ends in `.pdf`, and at most one more name than the directory holds is ever tried |

Facts the lemmas bring out about the code:

- **Headings overrun their estimate.** A heading is estimated at
  `1.5 * fontSize` but advances the cursor by `fontSize + spacing`.
  - The cursor can therefore end up past the bottom bound.
  - The page break is then taken before the next element, even an
    unsupported one that draws nothing (`HeadingCanEndBelowBottom`).
- **Unsupported elements can still break the page.** Their estimate is
  0, so they cause a break whenever the cursor is already past the bound.
- **Code is estimated and boxed without its own font.** Both the
  estimate and the box height use the face the previous element left.
  The 9-point Courier face is set only afterwards.

How the generator's code behaves, as modelled:

- A heading advances the cursor by font size plus spacing; nothing is
  measured (`AddHeading`).
- There is no error for a block taller than a page: the cursor runs past
  the bottom bound.
- The code box is the text's height at the default width plus 10, and it
  spans the whole printable width (`AddCode`).
- A quote's estimate subtracts the indent once from the printable width;
  it is drawn with PDFKit's first-line `indent` option (`AddQuote`,
  `Estimate`).
- A heading level without a style is not caught in advance: reading its
  font size throws a `TypeError` inside the loop, at the offending
  element (`Step`, `GenerateContent`).

## Left out

- PDFKit internals are not modelled:
  - line wrapping and `heightOfString` itself (a parameter here);
  - the document's own text cursor and the x/y positions of drawn text;
  - font files and colours as rendering;
  - the `continued: false` option, which changes nothing for single
    `text` calls.
- PDFKit's own page breaks inside `text` are not modelled. `text` draws
  at the document's own `y`, not at `currentY`, and starts a new page by
  itself when the text passes the bottom margin. `AddedPages` counts only
  the `addPage` calls `generateContent` makes.
- `finalizeDocument` and `generate` are not modelled: stream piping,
  the promise, and re-throwing after logging are I/O.
- `generateContent` is `async` and awaits the draw calls. The model is
  sequential, since every awaited call is synchronous.
- Floating point: sizes are exact reals.
  - The paragraph line gap `10 * (1.4 - 1)` is 4 exactly here, where
    doubles give 3.999999999999999.
  - Measurements, the only non-constant quantities, are parameters.
- A minimal page count is not stated, because the code does not
  achieve one.
  - Breaks are decided on estimates, while the cursor moves by different
    advances.
  - An unsupported element can add a page that stays empty.
- The browser session in `contentExtractor.js` (`launch`, `goto`,
  `close`, `document.title`) is not modelled. `querySelectorAll` is a
  filter over the document's nodes in document order.
- ElementExtractors.ExtractHeading: the identifier built from `Date.now()`
  and `Math.random()` is a parameter. Clock and randomness are not
  modelled.
- ElementExtractors.ParseLevel: `NaN` is represented by the level -1.
  Both are levels with no heading style, so the generator rejects them
  alike.
- JsString.ToLower: only ASCII letters are lower-cased. Unicode case
  mappings, including the length-changing ones, are not modelled.
  Strings are sequences of code points; UTF-16 surrogates are not
  modelled.
- The file system in `fileNamer.js` is not modelled: `mkdir`, `access`,
  the output directory path and the error logging. The names already
  present are a finite set.
- `fontHelper.js`, `fonts.js`, `index.js`, `progress.js` and `logger.js`
  are not part of this model: font registration, CLI prompting, the
  spinner and the logging back end. A logged warning is the `Warn`
  action.
