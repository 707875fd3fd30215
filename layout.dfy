/** The input both engines read, as the PDF layout layer would hand it over.
    Decoding the PDF, segmenting it into lines and averaging glyph sizes happen
    outside this model. */
module Layout {

  /** One horizontal text line: its raw (unstripped) text, the mean size of its
      glyphs, and the top and left coordinates of the text box that holds it
      (every line of one box carries the same pair). hasChars is false for a line
      that holds no glyph object; its size is then meaningless. */
  datatype Line = Line(text: string, size: real, top: real, left: real, hasChars: bool)

  /** The lines of one page, in the order the layout layer yields them. */
  type Page = seq<Line>

  /** All lines of a document, page after page. */
  function Flatten(pages: seq<Page>): seq<Line>
  {
    if pages == [] then [] else Flatten(pages[..|pages| - 1]) + pages[|pages| - 1]
  }
}
