/** The pagination and cursor bookkeeping of the PDF generator. The state
    is the page number, the vertical cursor `currentY`, the face the
    document is currently set to, and the log of drawing calls made on the
    document so far. Text measurement (`heightOfString`) is a black box
    given as a parameter; page width and height are parameters, and the
    margins are those of the style sheet, which the document is created
    with. */
module PdfGenerator {
  import opened Wrappers
  import opened Elements
  import Styles

  const S := Styles.Default
  const M := Styles.Default.page.margin

  /** Fill colour of the box behind a code block. */
  const CodeBackground := "#f6f8fa"

  /** Extra height added to a code block's measured text for its box. */
  const CodeBoxExtra := 10.0

  /** Font name and size the document is currently set to; measurements
      are taken with it. */
  datatype Face = Face(font: string, size: real)

  /** The `width` and `lineGap` options of a measurement. */
  datatype MeasureOptions = MeasureOptions(width: Option<real>, lineGap: Option<real>)

  const Unconstrained := MeasureOptions(None, None)

  /** `doc.heightOfString(text, options)` under the current face, `None`
      being the document's initial face. */
  type Measure = (Option<Face>, string, MeasureOptions) -> real

  ghost predicate NonNegative(measure: Measure) {
    forall f, t, o :: measure(f, t, o) >= 0.0
  }

  datatype Page = Page(width: real, height: real)

  /** PDFKit's default page, US Letter. */
  const Letter := Page(612.0, 792.0)

  /** The `lineGap`, `paragraphGap` and `indent` options of a text draw. */
  datatype TextOptions = TextOptions(lineGap: Option<real>, paragraphGap: Option<real>, indent: Option<real>)

  const Plain := TextOptions(None, None, None)

  /** One call on the document, or a logged warning. */
  datatype Action =
    | AddPage
    | SetFont(font: string, size: real, color: string)
    | DrawText(text: string, options: TextOptions)
    | FillRect(x: real, y: real, width: real, height: real, color: string)
    | Warn(kind: string)

  datatype State = State(pageNumber: int, currentY: real, face: Option<Face>, log: seq<Action>)

  /** `styles.heading[level]` is undefined, so reading its font size throws. */
  datatype Error = MissingHeadingStyle(index: nat, level: int)

  /** A fresh generator: first page, cursor at top margin plus padding. */
  function Init(): (st: State)
    ensures st.pageNumber == 1 && st.currentY == 108.0
    ensures st.face.None? && st.log == []
  {
    State(1, Styles.TopOfPage(), None, [])
  }

  function PrintableWidth(page: Page): real {
    page.width - M.left - M.right
  }

  function BottomBound(page: Page): real {
    page.height - M.bottom
  }

  /** Every element but a heading of a level outside 1 … 6 has a style. */
  predicate HasStyle(e: Element) {
    e.Heading? ==> 1 <= e.level <= 6
  }

  /** `calculateContentHeight`: the height an element is expected to
      need, measured with whatever face is current. */
  function Estimate(e: Element, page: Page, measure: Measure, face: Option<Face>): (r: Option<real>)
    ensures r.Some? <==> HasStyle(e)
    ensures NonNegative(measure) && r.Some? ==> r.value >= 0.0
    ensures e.Unsupported? ==> r == Some(0.0)
    ensures e.Heading? && HasStyle(e) ==> 15.0 <= r.value <= 30.0
    ensures e.Paragraph? || e.Code? ==>
      r == Some(measure(face, e.content, MeasureOptions(Some(page.width - 144.0), None)) + 12.0)
    ensures e.Quote? ==>
      r == Some(measure(face, e.content, MeasureOptions(Some(page.width - 174.0), None)) + 12.0)
  {
    var width := PrintableWidth(page);
    match e
    case Heading(level, _, _) =>
      var rule := Styles.HeadingStyle(level);
      if rule.Some? then Some(rule.value.fontSize * 1.5) else None
    case Paragraph(content) =>
      Some(measure(face, content, MeasureOptions(Some(width), None)) + S.paragraph.spacing)
    case Quote(content) =>
      Some(measure(face, content, MeasureOptions(Some(width - S.quote.indent), None)) + S.quote.spacing)
    case Code(content, _) =>
      Some(measure(face, content, MeasureOptions(Some(width), None)) + S.code.spacing)
    case Unsupported(_, _) =>
      Some(0.0)
  }

  /** The vertical advance each kind of element makes once drawn. */
  function Advance(e: Element, measure: Measure, face: Option<Face>): (r: real)
    requires HasStyle(e)
    ensures e.Heading? ==>
      r == Styles.HeadingStyle(e.level).value.fontSize + Styles.HeadingStyle(e.level).value.spacing
    ensures e.Heading? ==> 18.0 <= r <= 36.0
    ensures e.Unsupported? ==> r == 0.0
    ensures NonNegative(measure) ==> r >= 0.0
  {
    match e
    case Heading(level, _, _) =>
      var rule := Styles.HeadingStyle(level).value;
      rule.fontSize + rule.spacing
    case Paragraph(content) =>
      var p := S.paragraph;
      measure(Some(Face(S.fonts.regular, p.fontSize)), content,
        MeasureOptions(None, Some(p.fontSize * (p.lineHeight - 1.0)))) + p.spacing
    case Quote(content) =>
      measure(Some(Face(S.fonts.italic, S.quote.fontSize)), content, Unconstrained) + S.quote.spacing
    case Code(content, _) =>
      measure(face, content, Unconstrained) + CodeBoxExtra + S.code.spacing
    case Unsupported(_, _) =>
      0.0
  }

  /** The texts drawn by a log, in order. */
  function Texts(log: seq<Action>): seq<string> {
    if log == [] then []
    else (if log[0].DrawText? then [log[0].text] else []) + Texts(log[1..])
  }

  /** The kinds warned about in a log, in order. */
  function Warnings(log: seq<Action>): seq<string> {
    if log == [] then []
    else (if log[0].Warn? then [log[0].kind] else []) + Warnings(log[1..])
  }

  /** How many pages a log adds to the first one. */
  function AddedPages(log: seq<Action>): nat {
    if log == [] then 0
    else (if log[0] == AddPage then 1 else 0) + AddedPages(log[1..])
  }

  lemma {:induction false} TextsAppend(a: seq<Action>, b: seq<Action>)
    ensures Texts(a + b) == Texts(a) + Texts(b)
    decreases |a|
  {
    if a == [] {
      assert a + b == b;
    } else {
      assert (a + b)[0] == a[0] && (a + b)[1..] == a[1..] + b;
      TextsAppend(a[1..], b);
    }
  }

  lemma {:induction false} WarningsAppend(a: seq<Action>, b: seq<Action>)
    ensures Warnings(a + b) == Warnings(a) + Warnings(b)
    decreases |a|
  {
    if a == [] {
      assert a + b == b;
    } else {
      assert (a + b)[0] == a[0] && (a + b)[1..] == a[1..] + b;
      WarningsAppend(a[1..], b);
    }
  }

  lemma {:induction false} AddedPagesAppend(a: seq<Action>, b: seq<Action>)
    ensures AddedPages(a + b) == AddedPages(a) + AddedPages(b)
    decreases |a|
  {
    if a == [] {
      assert a + b == b;
    } else {
      assert (a + b)[0] == a[0] && (a + b)[1..] == a[1..] + b;
      AddedPagesAppend(a[1..], b);
    }
  }

  /** The projections of a log distribute over concatenation. */
  lemma LogAppend(a: seq<Action>, b: seq<Action>)
    ensures Texts(a + b) == Texts(a) + Texts(b)
    ensures Warnings(a + b) == Warnings(a) + Warnings(b)
    ensures AddedPages(a + b) == AddedPages(a) + AddedPages(b)
  {
    TextsAppend(a, b);
    WarningsAppend(a, b);
    AddedPagesAppend(a, b);
  }

  lemma Unroll(calls: seq<Action>)
    requires |calls| == 2
    ensures Texts(calls) == Texts([calls[0]]) + Texts([calls[1]])
    ensures Warnings(calls) == Warnings([calls[0]]) + Warnings([calls[1]])
    ensures AddedPages(calls) == AddedPages([calls[0]]) + AddedPages([calls[1]])
  {
    assert calls == [calls[0]] + [calls[1]];
    LogAppend([calls[0]], [calls[1]]);
  }

  /** `r` is `st` after one element was drawn: same page, the old log
      kept and followed by at least one call, the given texts drawn and
      warnings logged, no page added. */
  predicate DrawnAfter(st: State, r: State, texts: seq<string>, warnings: seq<string>) {
    && r.pageNumber == st.pageNumber
    && |st.log| < |r.log| && r.log[..|st.log|] == st.log
    && Texts(r.log) == Texts(st.log) + texts
    && Warnings(r.log) == Warnings(st.log) + warnings
    && AddedPages(r.log) == AddedPages(st.log)
  }

  /** `st` with `calls` made, the cursor at `y` and the face `face`. */
  function Emit(st: State, calls: seq<Action>, y: real, face: Option<Face>): (r: State)
    ensures r.pageNumber == st.pageNumber && r.currentY == y && r.face == face
    ensures r.log == st.log + calls && r.log[..|st.log|] == st.log
    ensures Texts(r.log) == Texts(st.log) + Texts(calls)
    ensures Warnings(r.log) == Warnings(st.log) + Warnings(calls)
    ensures AddedPages(r.log) == AddedPages(st.log) + AddedPages(calls)
  {
    LogAppend(st.log, calls);
    assert (st.log + calls)[..|st.log|] == st.log;
    State(st.pageNumber, y, face, st.log + calls)
  }

  /** `addHeading`: the level's bold face and colour, then the text; the
      cursor advances by font size plus spacing, nothing is measured. */
  function AddHeading(level: int, content: string, st: State): (r: State)
    requires 1 <= level <= 6
    ensures DrawnAfter(st, r, [content], [])
    ensures var rule := Styles.HeadingStyle(level).value;
      r.currentY == st.currentY + rule.fontSize + rule.spacing
    ensures 18.0 <= r.currentY - st.currentY <= 36.0
    ensures r.face == Some(Face(S.fonts.bold, Styles.HeadingStyle(level).value.fontSize))
    ensures |r.log| == |st.log| + 2 && r.log[|st.log| + 1] == DrawText(content, Plain)
    ensures var rule := Styles.HeadingStyle(level).value;
      r.log[|st.log|] == SetFont("Helvetica-Bold", rule.fontSize, rule.color)
  {
    var rule := Styles.HeadingStyle(level).value;
    var calls := [SetFont(S.fonts.bold, rule.fontSize, rule.color), DrawText(content, Plain)];
    Unroll(calls);
    Emit(st, calls, st.currentY + rule.fontSize + rule.spacing, Some(Face(S.fonts.bold, rule.fontSize)))
  }

  /** `addParagraph`: regular face, the text drawn with a line gap of
      `fontSize * (lineHeight - 1)` and a paragraph gap of the spacing; the
      cursor advances by the text's height measured in the paragraph face
      with that line gap, plus the spacing. */
  function AddParagraph(content: string, st: State, measure: Measure): (r: State)
    ensures DrawnAfter(st, r, [content], [])
    ensures r.face == Some(Face("Helvetica", 10.0))
    ensures |r.log| == |st.log| + 2
    ensures r.log[|st.log|] == SetFont("Helvetica", 10.0, "#333333")
    ensures r.log[|st.log| + 1] == DrawText(content, TextOptions(Some(4.0), Some(12.0), None))
    ensures r.currentY == st.currentY + measure(r.face, content, MeasureOptions(None, Some(4.0))) + 12.0
  {
    var p := S.paragraph;
    var face := Face(S.fonts.regular, p.fontSize);
    var gap := p.fontSize * (p.lineHeight - 1.0);
    var calls := [SetFont(S.fonts.regular, p.fontSize, S.colors.text),
      DrawText(content, TextOptions(Some(gap), Some(p.spacing), None))];
    Unroll(calls);
    Emit(st, calls, st.currentY + measure(Some(face), content, MeasureOptions(None, Some(gap))) + p.spacing, Some(face))
  }

  /** `addQuote`: italic face, the text drawn with the quote's first-line
      indent; the cursor advances by the height measured in the italic
      face at the default width, plus the spacing. */
  function AddQuote(content: string, st: State, measure: Measure): (r: State)
    ensures DrawnAfter(st, r, [content], [])
    ensures r.face == Some(Face("Helvetica-Oblique", 10.0))
    ensures |r.log| == |st.log| + 2
    ensures r.log[|st.log|] == SetFont("Helvetica-Oblique", 10.0, "#7F8C8D")
    ensures r.log[|st.log| + 1] == DrawText(content, TextOptions(None, None, Some(30.0)))
    ensures r.currentY == st.currentY + measure(r.face, content, Unconstrained) + 12.0
  {
    var face := Face(S.fonts.italic, S.quote.fontSize);
    var calls := [SetFont(S.fonts.italic, S.quote.fontSize, S.colors.quote),
      DrawText(content, TextOptions(None, None, Some(S.quote.indent)))];
    Unroll(calls);
    Emit(st, calls, st.currentY + measure(Some(face), content, Unconstrained) + S.quote.spacing, Some(face))
  }

  /** `addCode`: the code height is measured once, in the face left by the
      previous element, plus 10; a box of that height spanning the
      printable width is filled at the left margin and the cursor before
      the text is drawn; the cursor advances by the same height plus the
      spacing. */
  function AddCode(content: string, st: State, page: Page, measure: Measure): (r: State)
    ensures DrawnAfter(st, r, [content], [])
    ensures var h := measure(st.face, content, Unconstrained) + CodeBoxExtra;
      && r.log[|st.log|] == FillRect(M.left, st.currentY, PrintableWidth(page), h, CodeBackground)
      && r.currentY == st.currentY + h + 12.0
    ensures |r.log| == |st.log| + 3 && r.log[|st.log| + 2] == DrawText(content, Plain)
    ensures r.log[|st.log| + 1] == SetFont("Courier", 9.0, "#E74C3C")
    ensures r.face == Some(Face("Courier", 9.0))
  {
    var codeHeight := measure(st.face, content, Unconstrained) + CodeBoxExtra;
    var calls := [FillRect(M.left, st.currentY, page.width - M.left - M.right, codeHeight, CodeBackground),
      SetFont(S.fonts.code, S.code.fontSize, S.colors.code),
      DrawText(content, Plain)];
    Unroll(calls[1..]);
    assert calls == [calls[0]] + calls[1..];
    LogAppend([calls[0]], calls[1..]);
    Emit(st, calls, st.currentY + codeHeight + S.code.spacing, Some(Face(S.fonts.code, S.code.fontSize)))
  }

  /** The `default` branch: a warning naming the type, nothing drawn, the
      cursor and the face untouched. */
  function WarnUnsupported(kind: string, st: State): (r: State)
    ensures DrawnAfter(st, r, [], [kind])
    ensures r.log == st.log + [Warn(kind)]
    ensures r.currentY == st.currentY && r.face == st.face
  {
    var calls := [Warn(kind)];
    assert calls[1..] == [];
    assert Warnings(calls) == [kind] + Warnings([]);
    assert AddedPages(calls) == AddedPages([]);
    assert Texts(calls) == [] && Warnings(calls) == [kind] && AddedPages(calls) == 0;
    Emit(st, calls, st.currentY, st.face)
  }

  /** The `switch` on the element's type. */
  function Draw(e: Element, st: State, page: Page, measure: Measure): (r: State)
    requires HasStyle(e)
    ensures DrawnAfter(st, r, if e.Unsupported? then [] else [e.content], if e.Unsupported? then [e.kind] else [])
    ensures r.currentY == st.currentY + Advance(e, measure, st.face)
    ensures r.log[|st.log|] != AddPage
  {
    match e
    case Heading(level, content, _) => AddHeading(level, content, st)
    case Paragraph(content) => AddParagraph(content, st, measure)
    case Quote(content) => AddQuote(content, st, measure)
    case Code(content, _) => AddCode(content, st, page, measure)
    case Unsupported(kind, _) => WarnUnsupported(kind, st)
  }

  /** The overflow test: strictly more than the room left on the page. */
  predicate Overflows(currentY: real, estimate: real, page: Page) {
    currentY + estimate > BottomBound(page)
  }

  /** One turn of the loop in `generateContent`: estimate, break the page
      if the element would overflow, then draw it. */
  function Step(e: Element, index: nat, st: State, page: Page, measure: Measure): (r: Result<State, Error>)
    ensures r.Err? <==> !HasStyle(e)
    ensures r.Err? ==> r.error == MissingHeadingStyle(index, e.level)
    ensures r.Ok? ==> r.value.pageNumber >= st.pageNumber
  {
    match Estimate(e, page, measure, st.face)
    case None => Err(MissingHeadingStyle(index, e.level))
    case Some(height) =>
      if Overflows(st.currentY, height, page) then
        Ok(Draw(e, State(st.pageNumber + 1, Styles.TopOfPage(), st.face, st.log + [AddPage]), page, measure))
      else
        Ok(Draw(e, st, page, measure))
  }

  /** A page is added before an element exactly when the element's
      estimate overflows the page; the page number then grows by one and
      the element is drawn from the top of the new page; otherwise the
      page number stays and the element is drawn at the cursor. */
  lemma StepBreaksIffOverflow(e: Element, index: nat, st: State, page: Page, measure: Measure)
    requires HasStyle(e)
    ensures var r := Step(e, index, st, page, measure).value;
      var broke := Overflows(st.currentY, Estimate(e, page, measure, st.face).value, page);
      && r.pageNumber == st.pageNumber + (if broke then 1 else 0)
      && r.currentY == (if broke then Styles.TopOfPage() else st.currentY) + Advance(e, measure, st.face)
      && |st.log| < |r.log| && r.log[..|st.log|] == st.log
      && (broke <==> r.log[|st.log|] == AddPage)
      && AddedPages(r.log) == AddedPages(st.log) + (if broke then 1 else 0)
      && Texts(r.log) == Texts(st.log) + (if e.Unsupported? then [] else [e.content])
      && Warnings(r.log) == Warnings(st.log) + (if e.Unsupported? then [e.kind] else [])
  {
    var r := Step(e, index, st, page, measure).value;
    if Overflows(st.currentY, Estimate(e, page, measure, st.face).value, page) {
      var turned := State(st.pageNumber + 1, Styles.TopOfPage(), st.face, st.log + [AddPage]);
      LogAppend(st.log, [AddPage]);
      assert r == Draw(e, turned, page, measure);
      assert r.log[|st.log|] == r.log[..|turned.log|][|st.log|];
      assert r.log[..|st.log|] == r.log[..|turned.log|][..|st.log|];
    } else {
      assert r == Draw(e, st, page, measure);
    }
  }

  /** One turn of the loop, with the page and the measurement fixed. */
  type Stepper = (Element, nat, State) -> Result<State, Error>

  function StepOn(page: Page, measure: Measure): Stepper {
    (e: Element, index: nat, st: State) => Step(e, index, st, page, measure)
  }

  /** The loop of `generateContent` over the elements from position
      `index` on; a thrown error ends it. With a step that fails exactly
      on the headings without a style, the run completes exactly when
      there is none. */
  function Run(es: seq<Element>, index: nat, st: State, step: Stepper): (r: Result<State, Error>)
    ensures FailsOnUnstyled(step) ==> (r.Ok? <==> forall k :: 0 <= k < |es| ==> HasStyle(es[k]))
    decreases |es|
  {
    if es == [] then Ok(st)
    else match step(es[0], index, st)
      case Err(err) => Err(err)
      case Ok(next) =>
        assert forall k :: 1 <= k < |es| ==> es[1..][k - 1] == es[k];
        Run(es[1..], index + 1, next, step)
  }

  /** `generateContent` on a fresh generator: it completes exactly when
      every heading has a level from 1 to 6; otherwise it stops at the
      first heading without a style and reports its position and level. */
  function GenerateContent(es: seq<Element>, page: Page, measure: Measure): (r: Result<State, Error>)
    ensures r.Ok? <==> forall k :: 0 <= k < |es| ==> HasStyle(es[k])
    ensures r.Err? ==> FirstUnstyled(es, r.error.index) && r.error.level == es[r.error.index].level
  {
    StepOnFailsOnUnstyled(page, measure);
    RunFailsFromStart(es, Init(), StepOn(page, measure));
    Run(es, 0, Init(), StepOn(page, measure))
  }

  /** The contents of the elements the generator draws, in input order. */
  function DrawnContents(es: seq<Element>): seq<string> {
    if es == [] then []
    else (if es[0].Unsupported? then [] else [es[0].content]) + DrawnContents(es[1..])
  }

  /** The type names the generator warns about, in input order. */
  function UnsupportedKinds(es: seq<Element>): seq<string> {
    if es == [] then []
    else (if es[0].Unsupported? then [es[0].kind] else []) + UnsupportedKinds(es[1..])
  }

  /** A step fails exactly on a heading without a style, and says which. */
  ghost predicate FailsOnUnstyled(step: Stepper) {
    forall e, index, st :: (step(e, index, st).Err? <==> !HasStyle(e))
      && (step(e, index, st).Err? ==> step(e, index, st).error == MissingHeadingStyle(index, e.level))
  }

  /** What one successful step does to the bookkeeping: at most one page
      added, counted in the log; the old log kept; the element's text drawn
      or its type warned about. */
  predicate KeepsBooks(e: Element, st: State, next: State) {
    && st.pageNumber <= next.pageNumber <= st.pageNumber + 1
    && next.pageNumber - st.pageNumber == AddedPages(next.log) - AddedPages(st.log)
    && |st.log| <= |next.log| && next.log[..|st.log|] == st.log
    && Texts(next.log) == Texts(st.log) + (if e.Unsupported? then [] else [e.content])
    && Warnings(next.log) == Warnings(st.log) + (if e.Unsupported? then [e.kind] else [])
  }

  ghost predicate StepKeepsBooks(step: Stepper) {
    forall e, index, st :: step(e, index, st).Ok? ==> KeepsBooks(e, st, step(e, index, st).value)
  }

  /** A step never moves the cursor above the top of the page. */
  ghost predicate StaysBelowTop(step: Stepper) {
    forall e, index, st :: step(e, index, st).Ok? && st.currentY >= Styles.TopOfPage() ==>
      step(e, index, st).value.currentY >= Styles.TopOfPage()
  }

  lemma StepOnFailsOnUnstyled(page: Page, measure: Measure)
    ensures FailsOnUnstyled(StepOn(page, measure))
  {
  }

  lemma StepOnKeepsBooks(page: Page, measure: Measure)
    ensures StepKeepsBooks(StepOn(page, measure))
  {
    forall e, index, st | StepOn(page, measure)(e, index, st).Ok?
      ensures KeepsBooks(e, st, StepOn(page, measure)(e, index, st).value)
    {
      StepBreaksIffOverflow(e, index, st, page, measure);
    }
  }

  /** Position `i` holds the first element without a style. */
  predicate FirstUnstyled(es: seq<Element>, i: int) {
    0 <= i < |es| && !HasStyle(es[i]) && forall k :: 0 <= k < i ==> HasStyle(es[k])
  }

  /** A failed run stops at the first heading without a style, reporting
      its position and level. */
  lemma {:induction false} RunFailsAtFirstUnstyled(es: seq<Element>, index: nat, st: State, step: Stepper)
    requires FailsOnUnstyled(step)
    ensures Run(es, index, st, step).Err? ==>
      var err := Run(es, index, st, step).error;
      FirstUnstyled(es, err.index - index) && err.level == es[err.index - index].level
    decreases |es|
  {
    if es != [] {
      var r := step(es[0], index, st);
      if r.Ok? {
        var rest := Run(es[1..], index + 1, r.value, step);
        RunFailsAtFirstUnstyled(es[1..], index + 1, r.value, step);
        if rest.Err? {
          var i := rest.error.index - index;
          assert FirstUnstyled(es[1..], i - 1);
          assert forall k :: 1 <= k < i ==> es[1..][k - 1] == es[k];
          assert FirstUnstyled(es, i);
        }
      } else {
        assert FirstUnstyled(es, 0);
      }
    }
  }

  /** A successful run adds one page per break and at most one per
      element, and removes nothing from the log. */
  lemma {:induction false} RunCountsPages(es: seq<Element>, index: nat, st: State, step: Stepper)
    requires StepKeepsBooks(step)
    requires Run(es, index, st, step).Ok?
    ensures var fin := Run(es, index, st, step).value;
      && fin.pageNumber - st.pageNumber == AddedPages(fin.log) - AddedPages(st.log)
      && st.pageNumber <= fin.pageNumber <= st.pageNumber + |es|
      && |st.log| <= |fin.log| && fin.log[..|st.log|] == st.log
    decreases |es|
  {
    if es != [] {
      var next := step(es[0], index, st).value;
      assert KeepsBooks(es[0], st, next);
      RunCountsPages(es[1..], index + 1, next, step);
      var fin := Run(es[1..], index + 1, next, step).value;
      assert Run(es, index, st, step).value == fin;
      assert fin.log[..|st.log|] == fin.log[..|next.log|][..|st.log|];
    }
  }

  /** A successful run draws the texts of the supported elements, in
      input order, after those already in the log. */
  lemma {:induction false} RunDrawsContents(es: seq<Element>, index: nat, st: State, step: Stepper)
    requires StepKeepsBooks(step)
    requires Run(es, index, st, step).Ok?
    ensures Texts(Run(es, index, st, step).value.log) == Texts(st.log) + DrawnContents(es)
    decreases |es|
  {
    if es != [] {
      var next := step(es[0], index, st).value;
      assert KeepsBooks(es[0], st, next);
      RunDrawsContents(es[1..], index + 1, next, step);
      assert Run(es, index, st, step).value == Run(es[1..], index + 1, next, step).value;
      assert DrawnContents(es)
        == (if es[0].Unsupported? then [] else [es[0].content]) + DrawnContents(es[1..]);
    }
  }

  /** A successful run warns once about each unsupported element, in
      input order, after the warnings already in the log. */
  lemma {:induction false} RunWarnsUnsupported(es: seq<Element>, index: nat, st: State, step: Stepper)
    requires StepKeepsBooks(step)
    requires Run(es, index, st, step).Ok?
    ensures Warnings(Run(es, index, st, step).value.log) == Warnings(st.log) + UnsupportedKinds(es)
    decreases |es|
  {
    if es != [] {
      var next := step(es[0], index, st).value;
      assert KeepsBooks(es[0], st, next);
      RunWarnsUnsupported(es[1..], index + 1, next, step);
      assert Run(es, index, st, step).value == Run(es[1..], index + 1, next, step).value;
      assert UnsupportedKinds(es)
        == (if es[0].Unsupported? then [es[0].kind] else []) + UnsupportedKinds(es[1..]);
    }
  }

  /** With a step that keeps the cursor at or below the top of the page,
      so does the run. */
  lemma {:induction false} RunStaysBelowTop(es: seq<Element>, index: nat, st: State, step: Stepper)
    requires StaysBelowTop(step)
    requires st.currentY >= Styles.TopOfPage()
    requires Run(es, index, st, step).Ok?
    ensures Run(es, index, st, step).value.currentY >= Styles.TopOfPage()
    decreases |es|
  {
    if es != [] {
      var next := step(es[0], index, st).value;
      RunStaysBelowTop(es[1..], index + 1, next, step);
    }
  }

  lemma RunFailsFromStart(es: seq<Element>, st: State, step: Stepper)
    requires FailsOnUnstyled(step)
    ensures Run(es, 0, st, step).Err? ==>
      var err := Run(es, 0, st, step).error;
      FirstUnstyled(es, err.index) && err.level == es[err.index].level
  {
    RunFailsAtFirstUnstyled(es, 0, st, step);
  }

  /** The page number counts the pages `generateContent` adds: the first
      one plus every page added, and at most one more per element. */
  lemma PageNumberCountsPages(es: seq<Element>, page: Page, measure: Measure)
    requires GenerateContent(es, page, measure).Ok?
    ensures GenerateContent(es, page, measure).value.pageNumber
      == 1 + AddedPages(GenerateContent(es, page, measure).value.log)
    ensures 1 <= GenerateContent(es, page, measure).value.pageNumber <= 1 + |es|
  {
    StepOnKeepsBooks(page, measure);
    RunCountsPages(es, 0, Init(), StepOn(page, measure));
  }

  /** Elements are drawn strictly in input order; unsupported ones draw
      nothing and leave exactly one warning each. */
  lemma DrawsInInputOrder(es: seq<Element>, page: Page, measure: Measure)
    requires GenerateContent(es, page, measure).Ok?
    ensures Texts(GenerateContent(es, page, measure).value.log) == DrawnContents(es)
    ensures Warnings(GenerateContent(es, page, measure).value.log) == UnsupportedKinds(es)
  {
    StepOnKeepsBooks(page, measure);
    RunDrawsContents(es, 0, Init(), StepOn(page, measure));
    RunWarnsUnsupported(es, 0, Init(), StepOn(page, measure));
  }

  /** With non-negative measurements the cursor never moves back within a
      page, and a page break puts it back at the top of the page. */
  lemma CursorMonotoneWithinPage(e: Element, index: nat, st: State, page: Page, measure: Measure)
    requires NonNegative(measure)
    requires Step(e, index, st, page, measure).Ok?
    ensures var next := Step(e, index, st, page, measure).value;
      && (next.pageNumber == st.pageNumber ==> next.currentY >= st.currentY)
      && (next.pageNumber != st.pageNumber ==> next.currentY >= Styles.TopOfPage())
  {
    StepBreaksIffOverflow(e, index, st, page, measure);
  }

  /** With non-negative measurements the cursor never rises above the
      top-of-page position during `generateContent`. */
  lemma CursorBelowTop(es: seq<Element>, page: Page, measure: Measure)
    requires NonNegative(measure)
    requires GenerateContent(es, page, measure).Ok?
    ensures GenerateContent(es, page, measure).value.currentY >= Styles.TopOfPage()
  {
    var step := StepOn(page, measure);
    forall e, index, st | step(e, index, st).Ok? && st.currentY >= Styles.TopOfPage()
      ensures step(e, index, st).value.currentY >= Styles.TopOfPage()
    {
      CursorMonotoneWithinPage(e, index, st, page, measure);
    }
    RunStaysBelowTop(es, 0, Init(), step);
  }

  /** An element that exactly fills the rest of the page stays on it. */
  lemma ExactFitStaysOnPage(e: Element, index: nat, st: State, page: Page, measure: Measure)
    requires HasStyle(e)
    requires st.currentY + Estimate(e, page, measure, st.face).value == BottomBound(page)
    ensures Step(e, index, st, page, measure).Ok?
    ensures Step(e, index, st, page, measure).value.pageNumber == st.pageNumber
  {
    StepBreaksIffOverflow(e, index, st, page, measure);
  }

  /** No elements: the one automatic page, nothing drawn. */
  lemma EmptyContentIsOnePage(page: Page, measure: Measure)
    ensures GenerateContent([], page, measure) == Ok(Init())
  {
  }

  /** How the estimates of the kinds relate: a heading's ignores the
      measurement and the page, a code block's equals a paragraph's with
      the same text, and a quote's is a paragraph's on a page narrower by
      the quote indent. */
  lemma EstimatesByKind(level: int, text: string, id: string, language: Option<string>,
                        page: Page, measure: Measure, face: Option<Face>,
                        page': Page, measure': Measure, face': Option<Face>)
    requires 1 <= level <= 6
    ensures Estimate(Heading(level, text, id), page, measure, face)
      == Estimate(Heading(level, text, id), page', measure', face')
      == Some(Styles.HeadingStyle(level).value.fontSize * 1.5)
    ensures Estimate(Code(text, language), page, measure, face)
      == Estimate(Paragraph(text), page, measure, face)
    ensures Estimate(Quote(text), page, measure, face)
      == Estimate(Paragraph(text), page.(width := page.width - 30.0), measure, face)
  {
  }

  /** A heading always advances the cursor further than its estimate
      said, by its spacing less half its font size: 2 to 6 points, 2 at
      level 4 and 6 at level 1. */
  lemma HeadingAdvanceExceedsEstimate(level: int, text: string, id: string,
                                      page: Page, measure: Measure, face: Option<Face>)
    requires 1 <= level <= 6
    ensures var h := Heading(level, text, id);
      var rule := Styles.HeadingStyle(level).value;
      && Advance(h, measure, face) - Estimate(h, page, measure, face).value == rule.spacing - rule.fontSize / 2.0
      && 2.0 <= Advance(h, measure, face) - Estimate(h, page, measure, face).value <= 6.0
    ensures level == 4 ==>
      Advance(Heading(level, text, id), measure, face) - Estimate(Heading(level, text, id), page, measure, face).value == 2.0
    ensures level == 1 ==>
      Advance(Heading(level, text, id), measure, face) - Estimate(Heading(level, text, id), page, measure, face).value == 6.0
  {
  }

  /** On a Letter page a level-1 heading whose estimate exactly fills the
      page is not moved, and leaves the cursor 6 points below the bottom
      bound; a following element of an unsupported type then starts a new
      page although it draws nothing. */
  lemma HeadingCanEndBelowBottom(measure: Measure)
    ensures var st := State(1, 690.0, None, []);
      var h := Step(Heading(1, "Title", "heading-0"), 0, st, Letter, measure).value;
      && h.pageNumber == 1 && h.currentY == 726.0 > BottomBound(Letter)
      && var u := Step(Unsupported("table", "x"), 1, h, Letter, measure).value;
      u.pageNumber == 2 && u.currentY == Styles.TopOfPage()
      && u.log == h.log + [AddPage, Warn("table")]
  {
    var st := State(1, 690.0, None, []);
    var h := Step(Heading(1, "Title", "heading-0"), 0, st, Letter, measure).value;
    assert h == Draw(Heading(1, "Title", "heading-0"), st, Letter, measure);
    var turned := State(2, Styles.TopOfPage(), h.face, h.log + [AddPage]);
    var u := Step(Unsupported("table", "x"), 1, h, Letter, measure).value;
    assert u == Draw(Unsupported("table", "x"), turned, Letter, measure);
  }
}
