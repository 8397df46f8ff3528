/**
 * The screenplay editing shell: the selected element class and styles, the
 * suggestion list, and the key, scroll and selection handlers that drive the
 * editor. The Space, Enter and Tab decisions are pure functions; the session
 * class applies them.
 */
module ScreenplayAndSidebars {
  import opened Wrappers
  import opened Ascii
  import opened Enums
  import opened Extensions
  import opened EditorUtils
  import opened Project
  import opened EditorCore

  // ---------------------------------------------------------------- policies

  /** The text opens a scene heading: "int." or "ext." at its very start, in any case. */
  predicate StartsSceneHeading(text: string) {
    |text| >= 4 && (Lower(text[..4]) == "int." || Lower(text[..4]) == "ext.")
  }

  /** The class of the element Enter inserts after a non-empty element, with the caret at nodePos. */
  function NextElementClass(cls: string, nodePos: nat): (r: string)
    ensures r == "dialogue" || r == "action"
    ensures r == "dialogue" <==> nodePos != 0 && (cls == "character" || cls == "parenthetical")
  {
    if nodePos != 0 && (cls == "character" || cls == "parenthetical") then "dialogue" else "action"
  }

  /**
   * Enter: swallowed while suggestions are shown; an empty element becomes an
   * action and the key goes on to the host; before the end of the text the
   * host splits the element; at the end a new element is inserted.
   */
  function EnterPolicy(hasSuggestions: bool, cls: string, nodeSize: nat, nodePos: nat): (e: KeyEffect)
  {
    if hasSuggestions then Swallow
    else if nodeSize == 0 then Coerce("action", false)
    else if nodePos < nodeSize then DefaultSplit
    else InsertAfter(NextElementClass(cls, nodePos))
  }

  /** Space in an action element that opens a scene heading turns it into a scene. */
  function SpacePolicy(cls: string, text: string): (e: KeyEffect)
  {
    if cls == "action" && StartsSceneHeading(text) then Coerce("scene", false) else Pass
  }

  /** The editor's key handler: Space and Enter have a policy, every other key passes. */
  function KeyDownEffect(key: Key, hasSuggestions: bool, cls: string, text: string, nodePos: nat): (e: KeyEffect)
    ensures key != Space && key != Enter ==> e == Pass
  {
    if key == Space then SpacePolicy(cls, text)
    else if key == Enter then EnterPolicy(hasSuggestions, cls, |text|, nodePos)
    else Pass
  }

  /** Tab swaps action with character and parenthetical with dialogue; other kinds have no partner. */
  function TabNext(selected: string): (r: Option<string>)
  {
    if selected == "action" then Some("character")
    else if selected == "parenthetical" then Some("dialogue")
    else if selected == "character" then Some("action")
    else if selected == "dialogue" then Some("parenthetical")
    else Missing
  }

  // --------------------------------------------------------- policy lemmas

  /** The heading test ignores case: "INT. HOUSE" and "int. house" both open a scene. */
  lemma SceneHeadingIgnoresCase(text: string)
    ensures StartsSceneHeading(Upper(text)) == StartsSceneHeading(text)
  {
    if |text| >= 4 {
      assert Upper(text)[..4] == Upper(text[..4]);
      LowerOfUpper(text[..4]);
    }
  }

  /** The Space policy acts on action elements only, and only to make them scenes. */
  lemma SpaceOnlyActionToScene(cls: string, text: string)
    ensures SpacePolicy(cls, text) == Pass || SpacePolicy(cls, text) == Coerce("scene", false)
    ensures SpacePolicy(cls, text) != Pass <==> cls == "action" && StartsSceneHeading(text)
    ensures SpacePolicy("scene", text) == Pass
  {
  }

  /**
   * The Enter policy by cases: swallowed with suggestions; otherwise an empty
   * element is coerced to action without handling the key, a caret before the
   * end splits, and a caret at the end inserts dialogue after character or
   * parenthetical and action after anything else.
   */
  lemma EnterCases(hasSuggestions: bool, cls: string, nodeSize: nat, nodePos: nat)
    requires nodePos <= nodeSize
    ensures var e := EnterPolicy(hasSuggestions, cls, nodeSize, nodePos);
      && (hasSuggestions <==> e == Swallow)
      && (!hasSuggestions && nodeSize == 0 <==> e == Coerce("action", false))
      && (!hasSuggestions && 0 < nodeSize && nodePos < nodeSize <==> e == DefaultSplit)
      && (!hasSuggestions && 0 < nodeSize && nodePos == nodeSize ==>
            e == InsertAfter(if cls == "character" || cls == "parenthetical" then "dialogue" else "action"))
      && (e.Handled() <==> hasSuggestions || (0 < nodeSize && nodePos == nodeSize))
  {
  }

  /** Tab is an involution on the four kinds it swaps and a no-op on the others. */
  lemma TabInvolution(selected: string)
    ensures TabNext(selected).Some? ==> TabNext(TabNext(selected).value) == Some(selected)
    ensures TabNext(selected).Some? <==> selected in ["action", "character", "parenthetical", "dialogue"]
  {
  }

  // ---------------------------------------------------------------- session

  /** The screenplay shell's state, around its editor and its project. */
  class ScreenplaySession {
    var selectedStyles: Style
    var selectedElement: string
    var suggestions: seq<string>
    const editor: Editor
    const project: ProjectContext

    predicate Valid()
      reads this, editor, project
    {
      editor.Valid() && project.Valid()
    }

    constructor(editor: Editor, project: ProjectContext)
      requires editor.Valid() && project.Valid()
      ensures Valid()
      ensures this.editor == editor && this.project == project
      ensures selectedStyles == StyleNone && selectedElement == "action" && suggestions == []
    {
      this.editor := editor;
      this.project := project;
      selectedStyles := StyleNone;
      selectedElement := "action";
      suggestions := [];
    }

    /** What the key handler does in the current state. */
    function EffectOf(key: Key): KeyEffect
      reads this, editor, project
      requires Valid()
    {
      KeyDownEffect(key, |suggestions| > 0, editor.Current().cls, TextOf(editor.Current()), editor.cursor.offset)
    }

    /** Selects an element class, and applies it to the caret's element when asked to. */
    method SetActiveElement(element: string, applyStyle: bool)
      requires Valid()
      modifies this, editor
      ensures Valid()
      ensures selectedElement == element
      ensures applyStyle ==> editor.pages == SetClass(old(editor.pages), old(editor.cursor).page, old(editor.cursor).index, element)
      ensures !applyStyle ==> editor.pages == old(editor.pages)
      ensures editor.cursor == old(editor.cursor) && editor.storedMarks == old(editor.storedMarks)
      ensures editor.replacements == old(editor.replacements)
      ensures suggestions == old(suggestions) && selectedStyles == old(selectedStyles)
    {
      selectedElement := element;
      if applyStyle {
        editor.ApplyElement(element);
      }
    }

    /** The editor's key handler; returns whether the key was handled. */
    method HandleKeyDown(key: Key) returns (handled: bool)
      requires Valid()
      modifies this, editor
      ensures Valid()
      ensures handled == old(EffectOf(key)).Handled()
      ensures old(EffectOf(key)).Coerce? ==>
        && selectedElement == old(EffectOf(key)).cls
        && editor.pages == SetClass(old(editor.pages), old(editor.cursor).page, old(editor.cursor).index, old(EffectOf(key)).cls)
        && editor.cursor == old(editor.cursor)
      ensures old(EffectOf(key)).InsertAfter? ==>
        && selectedElement == old(selectedElement)
        && editor.pages == InsertElementAt(old(editor.pages), old(editor.cursor).page, old(editor.cursor).index + 1, old(EffectOf(key)).cls)
        && editor.cursor == Cursor(old(editor.cursor).page, old(editor.cursor).index + 1, 0)
      ensures old(EffectOf(key)) in {Pass, Swallow, DefaultSplit} ==>
        selectedElement == old(selectedElement) && editor.pages == old(editor.pages) && editor.cursor == old(editor.cursor)
      ensures suggestions == old(suggestions) && selectedStyles == old(selectedStyles)
      ensures editor.storedMarks == old(editor.storedMarks) && editor.replacements == old(editor.replacements)
    {
      var node := editor.Current();
      var nodeSize := |TextOf(node)|;
      var nodePos := editor.cursor.offset;
      var currNode := node.cls;
      handled := false;
      if key == Space {
        if currNode == "action" && StartsSceneHeading(TextOf(node)) {
          SetActiveElement("scene", true);
        }
      } else if key == Enter {
        if |suggestions| > 0 {
          return true;
        }
        if nodeSize == 0 {
          SetActiveElement("action", true);
          return false;
        }
        if nodePos < nodeSize {
          return false;
        }
        var newNode := "action";
        if nodePos != 0 {
          if currNode == "character" || currNode == "parenthetical" {
            newNode := "dialogue";
          }
        }
        editor.InsertElement(newNode);
        return true;
      }
    }

    /** The window's key handler: Tab swaps kinds, F2 inserts a page, Escape clears the suggestions. */
    method PressedKeyEvent(key: Key)
      requires Valid()
      modifies this, editor
      ensures Valid()
      ensures key == Tab && old(TabNext(selectedElement)).Some? ==>
        && selectedElement == old(TabNext(selectedElement)).value
        && editor.pages == SetClass(old(editor.pages), old(editor.cursor).page, old(editor.cursor).index, selectedElement)
        && editor.cursor == old(editor.cursor)
      ensures key == F2 ==>
        && editor.pages == InsertPageAt(old(editor.pages), old(editor.cursor).page + 1)
        && editor.cursor == Cursor(old(editor.cursor).page + 1, 0, 0)
      ensures (key == Tab && old(TabNext(selectedElement)).Missing?) || (key != Tab && key != F2) ==>
        editor.pages == old(editor.pages) && editor.cursor == old(editor.cursor)
      ensures key != Tab ==> selectedElement == old(selectedElement)
      ensures key == Escape ==> suggestions == []
      ensures key != Escape ==> suggestions == old(suggestions)
      ensures selectedStyles == old(selectedStyles)
      ensures editor.storedMarks == old(editor.storedMarks) && editor.replacements == old(editor.replacements)
    {
      if key == Tab {
        match TabNext(selectedElement)
        case Some(next) => SetActiveElement(next, true);
        case Missing =>
      }
      if key == F2 {
        editor.InsertPage();
      }
      if key == Escape {
        suggestions := [];
      }
    }

    /** Scrolling hides the suggestions. */
    method OnScroll()
      requires Valid()
      modifies this
      ensures Valid()
      ensures suggestions == []
      ensures selectedElement == old(selectedElement) && selectedStyles == old(selectedStyles)
    {
      if |suggestions| > 0 {
        suggestions := [];
      }
    }

    /**
     * The editor's selection hook: the selection follows the caret's element
     * class without re-applying it, and the styles follow the marks of the
     * text just before the caret when there is such text.
     */
    method OnSelectionUpdate()
      requires Valid()
      modifies this
      ensures Valid()
      ensures selectedElement == editor.Current().cls
      ensures editor.NodeBefore().Some? ==> selectedStyles == StyleOf(MarkNames(editor.NodeBefore().value.marks))
      ensures editor.NodeBefore().Missing? ==> selectedStyles == old(selectedStyles)
      ensures suggestions == old(suggestions)
    {
      var anchorClass := editor.Current().cls;
      selectedElement := anchorClass;
      var before := editor.NodeBefore();
      if before.Some? {
        selectedStyles := GetStylesFromMarks(MarkNames(before.value.marks));
      }
    }
  }
}
