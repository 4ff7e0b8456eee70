/** The content outline passed from the extractors to the PDF generator,
    and the abstract DOM node the extractors read. */
module Elements {
  import opened Wrappers

  /** One extracted block. The generator dispatches on the variant, which
      stands for the element's `type` string ('heading', 'paragraph',
      'quote', 'code'); `Unsupported` carries any other type name, so its
      `kind` is never one of those four: an element of a handled type is
      always the matching variant. */
  datatype Element =
    | Heading(level: int, content: string, id: string)
    | Paragraph(content: string)
    | Quote(content: string)
    | Code(content: string, language: Option<string>)
    | Unsupported(kind: string, content: string)

  /** The parts of a DOM element the extractors look at. */
  datatype Node = Node(tagName: string, textContent: string, className: string)
}
