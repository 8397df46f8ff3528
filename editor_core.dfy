/**
 * The editor document and its commands: the nested pages of elements with a
 * collapsed caret, the element-class, insert-element, insert-page and
 * mark-toggle commands, the text runs around the caret, the page overflow
 * test, and the editor hooks that update the project on every change.
 */
module EditorCore {
  import opened Wrappers
  import opened Enums
  import opened Extensions
  import opened ScreenplayNodes
  import opened EditorUtils
  import opened Project

  // ---------------------------------------------------------------- overflow

  /** Space kept free at the bottom of a page, in pixels. */
  const PageBottomMargin: int := 96

  /** An element overflows its page when its bottom edge passes the page's usable height. */
  function IsOverflown(offsetTop: int, offsetHeight: int, clientHeight: int): bool {
    offsetTop + offsetHeight > clientHeight - PageBottomMargin
  }

  /** An element ending exactly at the usable height does not overflow; one pixel more does. */
  lemma OverflowBoundary(offsetTop: int, offsetHeight: int, clientHeight: int)
    requires offsetTop + offsetHeight == clientHeight - PageBottomMargin
    ensures !IsOverflown(offsetTop, offsetHeight, clientHeight)
    ensures IsOverflown(offsetTop, offsetHeight + 1, clientHeight)
  {
  }

  /** A taller element, or a shorter page, overflows no less. */
  lemma OverflowMonotone(offsetTop: int, h: int, h': int, clientHeight: int, clientHeight': int)
    requires h <= h' && clientHeight' <= clientHeight
    ensures IsOverflown(offsetTop, h, clientHeight) ==> IsOverflown(offsetTop, h', clientHeight')
  {
  }

  // ---------------------------------------------------------------- document

  /** The keys the editor shells react to; every other key is OtherKey. */
  datatype Key = Space | Enter | Tab | F2 | Escape | CtrlS | CtrlX | OtherKey

  /**
   * What a key handler does to the element holding the caret and whether it
   * reports the key as handled (a handled key suppresses the host's default).
   */
  datatype KeyEffect =
    | Pass                                 // nothing changes; not handled
    | Swallow                              // nothing changes; handled
    | Coerce(cls: string, handled: bool)   // the element and the selection take class cls
    | DefaultSplit                         // not handled: the host splits the element at the caret
    | InsertAfter(cls: string)             // an empty element of class cls follows, with the caret; handled
  {
    predicate Handled() {
      Swallow? || (Coerce? && handled) || InsertAfter?
    }
  }

  /** A collapsed selection: the page, the element in it and the offset in the element's text. */
  datatype Cursor = Cursor(page: nat, index: nat, offset: nat)

  /** A replacement of one word by another requested on the document. */
  datatype Replacement = Replacement(oldWord: string, newWord: string)

  function TextOf(e: Element): string {
    Flatten(e.content)
  }

  predicate IndexIn(pages: seq<Page>, p: nat, i: nat) {
    p < |pages| && i < |pages[p].elements|
  }

  predicate CursorIn(pages: seq<Page>, c: Cursor) {
    IndexIn(pages, c.page, c.index) && c.offset <= |TextOf(pages[c.page].elements[c.index])|
  }

  /** Caret a lies at or before caret b in document order. */
  predicate AtOrBefore(a: Cursor, b: Cursor) {
    a.page < b.page
    || (a.page == b.page && a.index < b.index)
    || (a.page == b.page && a.index == b.index && a.offset <= b.offset)
  }

  /**
   * The end of the document: the caret position after every other one, where
   * focusing at "end" puts the caret.
   */
  function DocumentEnd(pages: seq<Page>): (r: Cursor)
    requires ValidPages(pages)
    ensures CursorIn(pages, r)
    ensures forall c :: CursorIn(pages, c) ==> AtOrBefore(c, r)
  {
    var p := |pages| - 1;
    var i := |pages[p].elements| - 1;
    Cursor(p, i, |TextOf(pages[p].elements[i])|)
  }

  /** The element at (p, i) takes the class cls; its text and every other element stay. */
  function SetClass(pages: seq<Page>, p: nat, i: nat, cls: string): (r: seq<Page>)
    requires IndexIn(pages, p, i)
    ensures |r| == |pages|
    ensures forall q :: 0 <= q < |r| ==> |r[q].elements| == |pages[q].elements|
    ensures r[p].elements[i] == Element(cls, pages[p].elements[i].content)
    ensures forall q: nat, j: nat :: IndexIn(pages, q, j) && (q != p || j != i) ==> r[q].elements[j] == pages[q].elements[j]
    ensures ValidPages(pages) ==> ValidPages(r)
  {
    var els := pages[p].elements;
    pages[p := Page(els[i := Element(cls, els[i].content)])]
  }

  /** An empty element of class cls goes in page p before the element at index at. */
  function InsertElementAt(pages: seq<Page>, p: nat, at: nat, cls: string): (r: seq<Page>)
    requires p < |pages| && at <= |pages[p].elements|
    ensures |r| == |pages|
    ensures forall q :: 0 <= q < |r| && q != p ==> r[q] == pages[q]
    ensures |r[p].elements| == |pages[p].elements| + 1
    ensures r[p].elements[at] == Element(cls, [])
    ensures r[p].elements[..at] == pages[p].elements[..at]
    ensures r[p].elements[at + 1..] == pages[p].elements[at..]
    ensures ValidPages(pages) ==> ValidPages(r)
  {
    var els := pages[p].elements;
    pages[p := Page(els[..at] + [Element(cls, [])] + els[at..])]
  }

  /** A default page, holding one empty action element, goes before page at. */
  function InsertPageAt(pages: seq<Page>, at: nat): (r: seq<Page>)
    requires at <= |pages|
    ensures |r| == |pages| + 1
    ensures r[at] == DefaultPage
    ensures r[..at] == pages[..at] && r[at + 1..] == pages[at..]
    ensures ValidPages(pages) ==> ValidPages(r)
  {
    pages[..at] + [DefaultPage] + pages[at..]
  }

  /** The text run holding character p of the runs' flattened text: the one whose span covers p. */
  function RunAt(runs: seq<TextRun>, p: int): (r: Option<TextRun>)
    ensures r.Some? <==> 0 <= p < |Flatten(runs)|
    ensures r.Some? ==> exists k :: 0 <= k < |runs| && r.value == runs[k] && RunSpans(runs, k, p)
  {
    if |runs| == 0 then Missing
    else
      var init := runs[..|runs| - 1];
      var last := runs[|runs| - 1];
      var n := |Flatten(init)|;
      if p < n then
        var r := RunAt(init, p);
        if r.Some? then SpanInPrefix(runs, init, p, r.value); r else r
      else if p < n + |last.text| then
        assert runs[..|runs|] == runs;
        assert RunSpans(runs, |runs| - 1, p);
        Some(last)
      else Missing
  }

  /** A run covering p among all runs but the last covers p among all runs. */
  lemma SpanInPrefix(runs: seq<TextRun>, init: seq<TextRun>, p: int, v: TextRun)
    requires |runs| > 0 && init == runs[..|runs| - 1]
    requires exists k :: 0 <= k < |init| && v == init[k] && RunSpans(init, k, p)
    ensures exists k :: 0 <= k < |runs| && v == runs[k] && RunSpans(runs, k, p)
  {
    var k :| 0 <= k < |init| && v == init[k] && RunSpans(init, k, p);
    assert init[..k] == runs[..k] && init[..k + 1] == runs[..k + 1];
    assert RunSpans(runs, k, p);
  }

  /** The run RunAt finds is the one covering p: a run covering p is the answer. */
  lemma RunAtFindsCovering(runs: seq<TextRun>, k: nat, p: int)
    requires k < |runs| && RunSpans(runs, k, p)
    ensures RunAt(runs, p) == Some(runs[k])
  {
    FlattenPrefixGrows(runs, k + 1, |runs|);
    assert runs[..|runs|] == runs;
    var j :| 0 <= j < |runs| && RunAt(runs, p).value == runs[j] && RunSpans(runs, j, p);
    if j < k {
      FlattenPrefixGrows(runs, j + 1, k);
    } else if k < j {
      FlattenPrefixGrows(runs, k + 1, j);
    }
  }

  /** The flattened text of a prefix of the runs grows with the prefix. */
  lemma FlattenPrefixGrows(runs: seq<TextRun>, a: nat, b: nat)
    requires a <= b <= |runs|
    ensures |Flatten(runs[..a])| <= |Flatten(runs[..b])|
  {
    assert runs[..b] == runs[..a] + runs[a..b];
    FlattenAppend(runs[..a], runs[a..b]);
  }

  /** Run k of runs covers position p of their flattened text. */
  predicate RunSpans(runs: seq<TextRun>, k: nat, p: int)
    requires k < |runs|
  {
    |Flatten(runs[..k])| <= p < |Flatten(runs[..k + 1])|
  }

  /**
   * The screenplay editor: the document as pages of elements, a collapsed
   * caret, the marks the next typed text will carry, and the replacements
   * requested on the document.
   */
  class Editor {
    var pages: seq<Page>
    var cursor: Cursor
    var storedMarks: MarkFlags
    var replacements: seq<Replacement>

    predicate Valid()
      reads this
    {
      ValidPages(pages) && CursorIn(pages, cursor)
    }

    /**
     * Opens a document: its content replaces the editor's whole range, which
     * maps the caret to the end, and the shells focus at the end as well.
     */
    constructor(doc: Screenplay)
      requires ValidScreenplay(doc)
      ensures Valid()
      ensures pages == doc.pages && cursor == DocumentEnd(doc.pages) && storedMarks == NoMarks && replacements == []
    {
      pages := doc.pages;
      cursor := DocumentEnd(doc.pages);
      storedMarks := NoMarks;
      replacements := [];
    }

    /** The element holding the caret. */
    function Current(): Element
      reads this
      requires Valid()
    {
      pages[cursor.page].elements[cursor.index]
    }

    /** The text run just before the caret, the one holding the character before it; none at the start of the element. */
    function NodeBefore(): (r: Option<TextRun>)
      reads this
      requires Valid()
      ensures r.Some? <==> cursor.offset > 0
      ensures r.Some? ==> exists k :: 0 <= k < |Current().content| && r.value == Current().content[k]
                                   && RunSpans(Current().content, k, cursor.offset - 1)
    {
      if cursor.offset == 0 then Missing else RunAt(Current().content, cursor.offset - 1)
    }

    /** The text run just after the caret, the one holding the character after it; none at the end of the element. */
    function NodeAfter(): (r: Option<TextRun>)
      reads this
      requires Valid()
      ensures r.Some? <==> cursor.offset < |TextOf(Current())|
      ensures r.Some? ==> exists k :: 0 <= k < |Current().content| && r.value == Current().content[k]
                                   && RunSpans(Current().content, k, cursor.offset)
    {
      RunAt(Current().content, cursor.offset)
    }

    /** Moves the caret (a selection change made by the user). */
    method SetCursor(c: Cursor)
      requires Valid() && CursorIn(pages, c)
      modifies this
      ensures Valid()
      ensures cursor == c
      ensures pages == old(pages) && storedMarks == old(storedMarks) && replacements == old(replacements)
    {
      cursor := c;
    }

    /** Sets the class of the element holding the caret. */
    method ApplyElement(cls: string)
      requires Valid()
      modifies this
      ensures Valid()
      ensures pages == SetClass(old(pages), old(cursor).page, old(cursor).index, cls)
      ensures cursor == old(cursor) && storedMarks == old(storedMarks) && replacements == old(replacements)
    {
      pages := SetClass(pages, cursor.page, cursor.index, cls);
    }

    /**
     * Inserts an empty element of class cls right after the element holding
     * the caret, and moves the caret into it.
     */
    method InsertElement(cls: string)
      requires Valid()
      modifies this
      ensures Valid()
      ensures pages == InsertElementAt(old(pages), old(cursor).page, old(cursor).index + 1, cls)
      ensures cursor == Cursor(old(cursor).page, old(cursor).index + 1, 0)
      ensures storedMarks == old(storedMarks) && replacements == old(replacements)
    {
      var c := cursor;
      pages := InsertElementAt(pages, c.page, c.index + 1, cls);
      cursor := Cursor(c.page, c.index + 1, 0);
    }

    /** Inserts a default page right after the page holding the caret, and moves the caret into it. */
    method InsertPage()
      requires Valid()
      modifies this
      ensures Valid()
      ensures pages == InsertPageAt(old(pages), old(cursor).page + 1)
      ensures cursor == Cursor(old(cursor).page + 1, 0, 0)
      ensures storedMarks == old(storedMarks) && replacements == old(replacements)
    {
      var c := cursor;
      pages := InsertPageAt(pages, c.page + 1);
      cursor := Cursor(c.page + 1, 0, 0);
      assert TextOf(pages[c.page + 1].elements[0]) == "";
    }

    /** Toggles bold, italic and underline at the caret, each when its bit is set. */
    method ApplyMarkToggle(style: Style)
      requires Valid()
      modifies this
      ensures Valid()
      ensures storedMarks == EditorUtils.ApplyMarkToggle(old(storedMarks), style)
      ensures pages == old(pages) && cursor == old(cursor) && replacements == old(replacements)
    {
      storedMarks := EditorUtils.ApplyMarkToggle(storedMarks, style);
    }

    /**
     * Requests that oldWord be replaced by newWord. The document the request
     * produces is given by the caller: this model records the request and does
     * not compute its effect on the text.
     */
    method ReplaceOccurrences(oldWord: string, newWord: string, edited: seq<Page>, caret: Cursor)
      requires Valid() && ValidPages(edited) && CursorIn(edited, caret)
      modifies this
      ensures Valid()
      ensures replacements == old(replacements) + [Replacement(oldWord, newWord)]
      ensures pages == edited && cursor == caret && storedMarks == old(storedMarks)
    {
      replacements := replacements + [Replacement(oldWord, newWord)];
      pages := edited;
      cursor := caret;
    }

    /**
     * A transaction hook: one without steps is ignored; otherwise the overflow
     * of the last element of the caret's page is computed from its geometry and
     * nothing is done with it.
     */
    method OnTransaction(steps: nat, lastTop: int, lastHeight: int, pageHeight: int) returns (overflow: Option<bool>)
      requires Valid()
      ensures steps == 0 <==> overflow.Missing?
      ensures overflow.Some? ==> (overflow.value <==> lastTop + lastHeight > pageHeight - PageBottomMargin)
    {
      if steps == 0 {
        return Missing;
      }
      overflow := Some(IsOverflown(lastTop, lastHeight, pageHeight));
    }
  }

  /** Inserting an element leaves every other element's class and text where the caret's page shifts them. */
  lemma InsertElementKeepsOthers(pages: seq<Page>, p: nat, at: nat, cls: string)
    requires p < |pages| && at <= |pages[p].elements|
    ensures var r := InsertElementAt(pages, p, at, cls);
      && (forall j :: 0 <= j < at ==> r[p].elements[j] == pages[p].elements[j])
      && (forall j :: at <= j < |pages[p].elements| ==> r[p].elements[j + 1] == pages[p].elements[j])
  {
    var r := InsertElementAt(pages, p, at, cls);
    forall j | 0 <= j < at
      ensures r[p].elements[j] == pages[p].elements[j]
    {
      assert r[p].elements[..at][j] == pages[p].elements[..at][j];
    }
    forall j | at <= j < |pages[p].elements|
      ensures r[p].elements[j + 1] == pages[p].elements[j]
    {
      assert r[p].elements[at + 1..][j - at] == pages[p].elements[at..][j - at];
    }
  }

  /** Setting the class an element already has changes nothing. */
  lemma SetClassIdempotent(pages: seq<Page>, p: nat, i: nat, cls: string)
    requires IndexIn(pages, p, i)
    ensures SetClass(SetClass(pages, p, i, cls), p, i, cls) == SetClass(pages, p, i, cls)
  {
    var once := SetClass(pages, p, i, cls);
    var els := once[p].elements;
    assert els[i := Element(cls, els[i].content)] == els;
    assert once[p := Page(els)] == once;
  }

  // ---------------------------------------------------------------- hooks

  /**
   * Every screenplay update marks the project as saving, then schedules the
   * debounced save, scene update and character update.
   */
  method OnScreenplayUpdate(project: ProjectContext)
    requires project.Valid()
    modifies project
    ensures project.Valid()
    ensures project.saveStatus == Saving
    ensures project.pending == old(project.pending) + {ScreenplaySave, SceneUpdate, CharactersUpdate}
    ensures project.scenesData == old(project.scenesData) && project.characters == old(project.characters)
  {
    project.UpdateSaveStatus(Saving);
    project.Schedule({ScreenplaySave, SceneUpdate, CharactersUpdate});
  }

  /** Every title-page update marks the project as saving and schedules the debounced title-page save. */
  method OnTitlePageUpdate(project: ProjectContext)
    requires project.Valid()
    modifies project
    ensures project.Valid()
    ensures project.saveStatus == Saving
    ensures project.pending == old(project.pending) + {TitlePageSave}
    ensures project.scenesData == old(project.scenesData) && project.characters == old(project.characters)
  {
    project.UpdateSaveStatus(Saving);
    project.Schedule({TitlePageSave});
  }
}
