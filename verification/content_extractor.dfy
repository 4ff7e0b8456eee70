/** The page-wide classifier that runs inside the browser: every node the
    selector `h1, h2, h3, h4, h5, h6, p, pre, blockquote` returns is turned
    into at most one element, in document order. The browser session and
    the page load are outside this model; the document is a node list. */
module ContentExtractor {
  import opened Wrappers
  import opened JsString
  import opened Elements

  /** Lower-case tag names the selector matches. */
  predicate IsSelectedTag(tag: string) {
    || tag == "h1" || tag == "h2" || tag == "h3" || tag == "h4" || tag == "h5" || tag == "h6"
    || tag == "p" || tag == "pre" || tag == "blockquote"
  }

  /** `node.tagName.toLowerCase()`. */
  function TagOf(n: Node): string {
    ToLower(n.tagName)
  }

  predicate IsSelected(n: Node) {
    IsSelectedTag(TagOf(n))
  }

  /** `document.querySelectorAll(selector)` over a document given as its
      element list in document order. */
  function SelectNodes(doc: seq<Node>): (r: seq<Node>)
    ensures forall n <- r :: IsSelected(n)
    ensures forall n <- doc :: IsSelected(n) <==> n in r
    ensures |r| <= |doc|
  {
    if doc == [] then []
    else (if IsSelected(doc[0]) then [doc[0]] else []) + SelectNodes(doc[1..])
  }

  /** A lone node is selected exactly when it matches. */
  lemma SelectOne(n: Node)
    ensures SelectNodes([n]) == if IsSelected(n) then [n] else []
  {
    assert [n][1..] == [];
  }

  /** The selection is a filter in document order: the selection of a
      document split in two is the selection of the first part followed
      by that of the second. */
  lemma {:induction false} SelectNodesInOrder(a: seq<Node>, b: seq<Node>)
    ensures SelectNodes(a + b) == SelectNodes(a) + SelectNodes(b)
    decreases |a|
  {
    if a == [] {
      assert a + b == b;
    } else {
      var head := if IsSelected(a[0]) then [a[0]] else [];
      assert (a + b)[0] == a[0] && (a + b)[1..] == a[1..] + b;
      assert SelectNodes(a + b) == head + SelectNodes(a[1..] + b);
      SelectNodesInOrder(a[1..], b);
      ConcatAssociative(head, SelectNodes(a[1..]), SelectNodes(b));
    }
  }

  /** The unanchored test `tag.match(/h[1-6]/)`: some `h` is followed by a
      digit from 1 to 6. */
  predicate HasHeadingPattern(tag: string) {
    |tag| >= 2 && ((tag[0] == 'h' && '1' <= tag[1] <= '6') || HasHeadingPattern(tag[1..]))
  }

  predicate IsHeadingTag(tag: string) {
    |tag| == 2 && tag[0] == 'h' && '1' <= tag[1] <= '6'
  }

  /** On the selector's own tags the unanchored pattern picks out exactly
      `h1` … `h6`; `blockquote`, `pre` and `p` never match it. */
  lemma PatternOnSelectedTags(tag: string)
    requires IsSelectedTag(tag)
    ensures HasHeadingPattern(tag) <==> IsHeadingTag(tag)
  {
    if !IsHeadingTag(tag) {
      NoLetterHNoPattern(tag);
    }
  }

  lemma {:induction false} NoLetterHNoPattern(tag: string)
    requires forall i :: 0 <= i < |tag| ==> tag[i] != 'h'
    ensures !HasHeadingPattern(tag)
  {
    if |tag| >= 2 {
      NoLetterHNoPattern(tag[1..]);
    }
  }

  /** The identifier a heading gets from its position among the selected
      nodes. */
  function HeadingId(index: nat): string {
    "heading-" + NumberToString(index)
  }

  predicate IsBlankParagraph(n: Node) {
    TagOf(n) == "p" && Trim(n.textContent) == []
  }

  /** The body of the `forEach` callback for the node at `index`. */
  function ClassifyNode(n: Node, index: nat): (r: Option<Element>)
    requires IsSelected(n)
    ensures r.None? <==> IsBlankParagraph(n)
    ensures r.Some? ==> IsTrimOf(n.textContent, r.value.content)
    ensures r.Some? ==> !r.value.Unsupported?
    ensures r.Some? && r.value.Heading? <==> IsHeadingTag(TagOf(n))
    ensures r.Some? && r.value.Heading? ==>
      r.value.level == ParseDecimal(TagOf(n)[1..2]) && 1 <= r.value.level <= 6
      && r.value.id == HeadingId(index)
    ensures r.Some? && r.value.Paragraph? <==> TagOf(n) == "p" && !IsBlankParagraph(n)
    ensures r.Some? && r.value.Code? <==> TagOf(n) == "pre"
    ensures r.Some? && r.value.Code? ==> r.value.language.None?
    ensures r.Some? && r.value.Quote? <==> TagOf(n) == "blockquote"
  {
    var tag := TagOf(n);
    PatternOnSelectedTags(tag);
    if HasHeadingPattern(tag) then
      Some(Heading(DigitValue(tag[1]), Trim(n.textContent), HeadingId(index)))
    else if tag == "p" then
      var text := Trim(n.textContent);
      if text != [] then Some(Paragraph(text)) else None
    else if tag == "pre" then
      Some(Code(Trim(n.textContent), None))
    else if tag == "blockquote" then
      Some(Quote(Trim(n.textContent)))
    else
      None
  }

  predicate AllSelected(nodes: seq<Node>) {
    forall n <- nodes :: IsSelected(n)
  }

  /** The values pushed by a sequence of callbacks, in order. */
  function Pushed<T>(os: seq<Option<T>>): (r: seq<T>)
    ensures |r| == |PushedAt(os)| <= |os|
  {
    if os == [] then [] else Pushed(os[..|os| - 1]) + OptionToSeq(os[|os| - 1])
  }

  /** Positions of the callbacks that pushed something, in order. */
  function PushedAt<T>(os: seq<Option<T>>): (ks: seq<nat>)
    ensures forall k :: 0 <= k < |ks| ==> ks[k] < |os|
    ensures forall k, l :: 0 <= k < l < |ks| ==> ks[k] < ks[l]
  {
    if os == [] then []
    else
      var k := |os| - 1;
      var init := PushedAt(os[..k]);
      var last := if os[k].Some? then [k] else [];
      assert forall j :: 0 <= j < |last| ==> last[j] == k;
      init + last
  }

  /** The `j`-th value pushed came from callback `PushedAt(os)[j]`. */
  lemma {:induction false} PushedFollows<T>(os: seq<Option<T>>)
    ensures forall j :: 0 <= j < |PushedAt(os)| ==> os[PushedAt(os)[j]] == Some(Pushed(os)[j])
    decreases |os|
  {
    if os != [] {
      var k := |os| - 1;
      var init := os[..k];
      PushedFollows(init);
      var ks0, out0 := PushedAt(init), Pushed(init);
      var ks, out := PushedAt(os), Pushed(os);
      assert ks == ks0 + (if os[k].Some? then [k] else []);
      assert out == out0 + OptionToSeq(os[k]);
      forall j | 0 <= j < |ks| ensures os[ks[j]] == Some(out[j]) {
        if j < |ks0| {
          assert ks[j] == ks0[j] && out[j] == out0[j];
          assert os[ks0[j]] == init[ks0[j]];
        }
      }
    }
  }

  /** A callback's position is listed exactly when it pushed something. */
  lemma {:induction false} PushedAtIff<T>(os: seq<Option<T>>, i: nat)
    requires i < |os|
    ensures i in PushedAt(os) <==> os[i].Some?
    decreases |os|
  {
    var k := |os| - 1;
    var init := os[..k];
    var last := if os[k].Some? then [k] else [];
    assert PushedAt(os) == PushedAt(init) + last;
    if i < k {
      PushedAtIff(init, i);
      assert init[i] == os[i];
      assert i !in last;
    } else {
      assert k !in PushedAt(init);
    }
  }

  /** What the `forEach` callback returns for each selected node, given
      its position. */
  function Callbacks(nodes: seq<Node>): (os: seq<Option<Element>>)
    requires AllSelected(nodes)
    ensures |os| == |nodes|
    ensures forall i :: 0 <= i < |nodes| ==> os[i] == ClassifyNode(nodes[i], i)
  {
    seq(|nodes|, i requires 0 <= i < |nodes| => ClassifyNode(nodes[i], i))
  }

  /** The `forEach` loop over the selected nodes: what the callbacks
      pushed, in order. */
  function Classify(nodes: seq<Node>): (out: seq<Element>)
    requires AllSelected(nodes)
    ensures |out| == |KeptIndices(nodes)| <= |nodes|
  {
    Pushed(Callbacks(nodes))
  }

  /** The whole in-page extraction: select, then classify. */
  function ExtractElements(doc: seq<Node>): (out: seq<Element>)
    ensures |out| <= |SelectNodes(doc)|
  {
    Classify(SelectNodes(doc))
  }

  /** Positions of the selected nodes that yield an element, in order. */
  function KeptIndices(nodes: seq<Node>): (ks: seq<nat>)
    requires AllSelected(nodes)
    ensures forall k :: 0 <= k < |ks| ==> ks[k] < |nodes|
    ensures forall k, l :: 0 <= k < l < |ks| ==> ks[k] < ks[l]
  {
    PushedAt(Callbacks(nodes))
  }

  /** Output element `k` is what the callback made of selected node
      `KeptIndices(nodes)[k]`: order is preserved and nothing but blank
      paragraphs is skipped. */
  lemma ClassifyFollowsKept(nodes: seq<Node>)
    requires AllSelected(nodes)
    ensures forall k :: 0 <= k < |KeptIndices(nodes)| ==>
      ClassifyNode(nodes[KeptIndices(nodes)[k]], KeptIndices(nodes)[k]) == Some(Classify(nodes)[k])
  {
    PushedFollows(Callbacks(nodes));
  }

  /** Every element's content is the trimmed text of the node it came
      from, so it has no whitespace at either end. */
  lemma ContentIsTrimmed(nodes: seq<Node>)
    requires AllSelected(nodes)
    ensures forall k :: 0 <= k < |Classify(nodes)| ==>
      IsTrimOf(nodes[KeptIndices(nodes)[k]].textContent, Classify(nodes)[k].content)
      && IsTrimmed(Classify(nodes)[k].content)
  {
    ClassifyFollowsKept(nodes);
    var out, ks := Classify(nodes), KeptIndices(nodes);
    forall k | 0 <= k < |out|
      ensures IsTrimOf(nodes[ks[k]].textContent, out[k].content) && IsTrimmed(out[k].content)
    {
      ElementIsTrimmed(nodes[ks[k]], ks[k], out[k]);
    }
  }

  lemma ElementIsTrimmed(n: Node, index: nat, e: Element)
    requires IsSelected(n)
    requires ClassifyNode(n, index) == Some(e)
    ensures IsTrimOf(n.textContent, e.content) && IsTrimmed(e.content)
  {
    TrimUnique(n.textContent, e.content);
  }

  /** Number of paragraph nodes whose trimmed text is empty. */
  function BlankParagraphs(nodes: seq<Node>): nat {
    if nodes == [] then 0
    else BlankParagraphs(nodes[..|nodes| - 1]) + (if IsBlankParagraph(nodes[|nodes| - 1]) then 1 else 0)
  }

  /** Only blank paragraphs are dropped: one element per other node. */
  lemma {:induction false} OnlyBlankParagraphsDropped(nodes: seq<Node>)
    requires AllSelected(nodes)
    ensures |Classify(nodes)| == |nodes| - BlankParagraphs(nodes)
    decreases |nodes|
  {
    if nodes != [] {
      var k := |nodes| - 1;
      var os := Callbacks(nodes);
      OnlyBlankParagraphsDropped(nodes[..k]);
      assert os[..k] == Callbacks(nodes[..k]);
      assert Pushed(os) == Pushed(os[..k]) + OptionToSeq(os[k]);
    }
  }

  /** A selected node is skipped exactly when it is a blank paragraph. */
  lemma KeptIffNotBlank(nodes: seq<Node>, i: nat)
    requires AllSelected(nodes)
    requires i < |nodes|
    ensures i in KeptIndices(nodes) <==> !IsBlankParagraph(nodes[i])
  {
    PushedAtIff(Callbacks(nodes), i);
  }

  /** Two distinct headings never share an identifier. */
  lemma HeadingIdsDistinct(nodes: seq<Node>, a: nat, b: nat)
    requires AllSelected(nodes)
    requires a < b < |Classify(nodes)|
    requires Classify(nodes)[a].Heading? && Classify(nodes)[b].Heading?
    ensures Classify(nodes)[a].id != Classify(nodes)[b].id
  {
    ClassifyFollowsKept(nodes);
    var out, ks := Classify(nodes), KeptIndices(nodes);
    HeadingIdAt(nodes[ks[a]], ks[a], out[a]);
    HeadingIdAt(nodes[ks[b]], ks[b], out[b]);
    HeadingIdInjective(ks[a], ks[b]);
  }

  lemma HeadingIdAt(n: Node, index: nat, e: Element)
    requires IsSelected(n)
    requires ClassifyNode(n, index) == Some(e)
    requires e.Heading?
    ensures e.id == HeadingId(index)
  {
  }

  lemma HeadingIdInjective(i: nat, j: nat)
    ensures HeadingId(i) == HeadingId(j) ==> i == j
  {
    if HeadingId(i) == HeadingId(j) {
      assert HeadingId(i)[8..] == NumberToString(i);
      assert HeadingId(j)[8..] == NumberToString(j);
      NumberToStringInjective(i, j);
    }
  }

  /** Extracted headings always carry a level from 1 to 6. */
  lemma ExtractedHeadingLevels(doc: seq<Node>)
    ensures forall e <- ExtractElements(doc) :: e.Heading? ==> 1 <= e.level <= 6
    ensures forall e <- ExtractElements(doc) :: !e.Unsupported?
  {
    var nodes := SelectNodes(doc);
    ClassifyFollowsKept(nodes);
    var out, ks := Classify(nodes), KeptIndices(nodes);
    forall e <- out ensures (e.Heading? ==> 1 <= e.level <= 6) && !e.Unsupported? {
      var k :| 0 <= k < |out| && out[k] == e;
      assert ClassifyNode(nodes[ks[k]], ks[k]) == Some(e);
    }
  }
}
