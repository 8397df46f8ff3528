/**
 * The document schema: a screenplay is one or more pages, a page one or more
 * elements, an element zero or more text runs carrying a class name; and the
 * HTML parse/render tables of elements and of the three inline marks.
 */
module Extensions {
  import opened Wrappers

  /** The three inline marks of the schema. */
  datatype Mark = Bold | Italic | Underline {
    /** The mark's type name in the document JSON. */
    function Name(): string {
      match this
      case Bold => "bold"
      case Italic => "italic"
      case Underline => "underline"
    }
    /** The span's class the mark renders to. */
    function CssClass(): string {
      match this
      case Bold => "bold"
      case Italic => "italic"
      case Underline => "underline"
    }
  }

  datatype TextRun = TextRun(text: string, marks: seq<Mark>)

  /** An element: its class attribute and its inline content ("text*"). */
  datatype Element = Element(cls: string, content: seq<TextRun>)

  /** A page: "element+". */
  datatype Page = Page(elements: seq<Element>)

  /** The document root: "page+". */
  datatype Screenplay = Screenplay(pages: seq<Page>)

  /** The class an element gets when none is given. */
  const DefaultClass: string := "action"

  predicate ValidPage(p: Page) {
    |p.elements| >= 1
  }

  predicate ValidPages(pages: seq<Page>) {
    |pages| >= 1 && forall i :: 0 <= i < |pages| ==> ValidPage(pages[i])
  }

  predicate ValidScreenplay(s: Screenplay) {
    ValidPages(s.pages)
  }

  /** Creates an element node; the class falls back to the attribute default. */
  function CreateElement(cls: Option<string>, content: seq<TextRun>): (e: Element)
    ensures cls.Missing? ==> e.cls == "action"
    ensures cls.Some? ==> e.cls == cls.value
    ensures e.content == content
  {
    Element(if cls.Some? then cls.value else DefaultClass, content)
  }

  /** An HTML tag with its class attribute, as parsed and rendered. */
  datatype HtmlTag = HtmlTag(tag: string, cls: string)

  /** Parsing a paragraph reads the DOM element's class attribute verbatim. */
  function ParseElement(dom: HtmlTag, content: seq<TextRun>): (e: Element)
    ensures e.cls == dom.cls && e.content == content
  {
    Element(dom.cls, content)
  }

  /** Rendering emits a <p> whose attributes are the element's own. */
  function RenderElement(e: Element): (dom: HtmlTag)
    ensures dom.tag == "p" && dom.cls == e.cls
  {
    HtmlTag("p", e.cls)
  }

  /** An element survives rendering and parsing back unchanged. */
  lemma ElementRoundTrip(e: Element)
    ensures ParseElement(RenderElement(e), e.content) == e
  {
  }

  function RenderMark(m: Mark): (dom: HtmlTag)
    ensures dom.tag == "span"
  {
    HtmlTag("span", m.CssClass())
  }

  /** The parse rules "span.bold", "span.italic", "span.underline". */
  function ParseMark(dom: HtmlTag): (r: Option<Mark>)
    ensures forall m: Mark :: r == Some(m) <==> dom == RenderMark(m)
  {
    if dom.tag != "span" then Missing
    else if dom.cls == "bold" then Some(Bold)
    else if dom.cls == "italic" then Some(Italic)
    else if dom.cls == "underline" then Some(Underline)
    else Missing
  }

  /** Every mark parses back from the tag it renders to, and to no other mark. */
  lemma MarkRoundTrip(m: Mark)
    ensures ParseMark(RenderMark(m)) == Some(m)
  {
  }
}
