/**
 * The editor's vocabulary: save states, save modes, the style bit mask and the
 * closed sets of title-page and screenplay element kinds.
 */
module Enums {
  import opened Wrappers

  /** Status of the project's persistence, shown to the user. */
  datatype SaveStatus = Saving | Saved | Error

  /** Where a project is saved; Both is the bitwise union of the two single modes. */
  type SaveMode = bv8
  const SaveModeLocal: SaveMode := 1
  const SaveModeCloud: SaveMode := 2
  const SaveModeBoth: SaveMode := SaveModeLocal | SaveModeCloud

  /** Inline style flags; a selection's style is the bitwise union of its flags. */
  type Style = bv8
  const StyleNone: Style := 0
  const StyleBold: Style := 1
  const StyleItalic: Style := 2
  const StyleUnderline: Style := 4

  /** Kinds of the title page's elements, with the class names they carry. */
  datatype TitlePageElement = Title | Author | Contact | Other {
    function Name(): string {
      match this
      case Title => "title"
      case Author => "author"
      case Contact => "contact"
      case Other => "other"
    }
  }

  /** Kinds of the screenplay's elements; None is the explicit empty marker. */
  datatype ScreenplayElement =
    | Scene | Action | Character | Dialogue | Parenthetical
    | Transition | Section | Note | None
  {
    /** The class name the kind carries in the document and the style sheet. */
    function Name(): string {
      match this
      case Scene => "scene"
      case Action => "action"
      case Character => "character"
      case Dialogue => "dialogue"
      case Parenthetical => "parenthetical"
      case Transition => "transition"
      case Section => "section"
      case Note => "note"
      case None => "none"
    }
  }

  const AllTitlePageElements: seq<TitlePageElement> := [Title, Author, Contact, Other]

  const AllScreenplayElements: seq<ScreenplayElement> :=
    [Scene, Action, Character, Dialogue, Parenthetical, Transition, Section, Note, None]

  /** Reads a class name back as a screenplay kind; an unknown class is no kind. */
  function ParseScreenplayElement(s: string): (r: Option<ScreenplayElement>)
    ensures forall k: ScreenplayElement :: r == Some(k) <==> k.Name() == s
  {
    if s == "scene" then Some(Scene)
    else if s == "action" then Some(Action)
    else if s == "character" then Some(Character)
    else if s == "dialogue" then Some(Dialogue)
    else if s == "parenthetical" then Some(Parenthetical)
    else if s == "transition" then Some(Transition)
    else if s == "section" then Some(Section)
    else if s == "note" then Some(Note)
    else if s == "none" then Some(None)
    else Missing
  }

  /** Reads a class name back as a title-page kind. */
  function ParseTitlePageElement(s: string): (r: Option<TitlePageElement>)
    ensures forall k: TitlePageElement :: r == Some(k) <==> k.Name() == s
  {
    if s == "title" then Some(Title)
    else if s == "author" then Some(Author)
    else if s == "contact" then Some(Contact)
    else if s == "other" then Some(Other)
    else Missing
  }

  /** The screenplay kinds are exactly nine, listed once each. */
  lemma ScreenplayElementsClosed(k: ScreenplayElement)
    ensures k in AllScreenplayElements
    ensures |AllScreenplayElements| == 9
    ensures forall i, j :: 0 <= i < j < 9 ==> AllScreenplayElements[i] != AllScreenplayElements[j]
  {
  }

  /** The title-page kinds are exactly Title, Author, Contact and Other. */
  lemma TitlePageElementsClosed(k: TitlePageElement)
    ensures k in AllTitlePageElements
    ensures |AllTitlePageElements| == 4
    ensures forall i, j :: 0 <= i < j < 4 ==> AllTitlePageElements[i] != AllTitlePageElements[j]
  {
  }

  /** Distinct kinds carry distinct class names. */
  lemma ScreenplayNamesInjective(a: ScreenplayElement, b: ScreenplayElement)
    ensures a.Name() == b.Name() ==> a == b
  {
    assert ParseScreenplayElement(a.Name()) == Some(a);
  }

  /** Save status has exactly three states. */
  lemma SaveStatusClosed(s: SaveStatus)
    ensures s == Saving || s == Saved || s == Error
  {
  }

  /** SaveMode.Both is Local | Cloud, that is 3. */
  lemma SaveModeBothIsUnion()
    ensures SaveModeBoth == 3
    ensures SaveModeBoth & SaveModeLocal != 0 && SaveModeBoth & SaveModeCloud != 0
  {
  }

  /** A union of style flags. */
  function StyleOfFlags(bold: bool, italic: bool, underline: bool): (s: Style)
    ensures s as int < 8
    ensures (s & StyleBold != 0) == bold
    ensures (s & StyleItalic != 0) == italic
    ensures (s & StyleUnderline != 0) == underline
  {
    (if bold then StyleBold else StyleNone)
    | (if italic then StyleItalic else StyleNone)
    | (if underline then StyleUnderline else StyleNone)
  }

  /** The three flags are distinct single bits, and None holds none of them. */
  lemma StyleFlagsAreBits()
    ensures StyleBold & StyleItalic == 0 && StyleBold & StyleUnderline == 0 && StyleItalic & StyleUnderline == 0
    ensures StyleBold | StyleItalic | StyleUnderline == 7
    ensures StyleNone & (StyleBold | StyleItalic | StyleUnderline) == 0
  {
  }
}
